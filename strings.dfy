/** The few pieces of Python's `str` behaviour that the decoder, the card model
    and the number-word parser rely on: `split` on a separator, `split()` on
    whitespace, the `in` substring test, `str(int)`/f-string formatting of
    integers, `int(str)` and `lower()` on ASCII letters. */
module Strings {
  import opened Wrappers

  /** `sub` occurs in `s` starting at index `i`. */
  predicate OccursAt(s: string, sub: string, i: nat) {
    i + |sub| <= |s| && s[i..i + |sub|] == sub
  }

  /** Python's `sub in s`. */
  predicate Contains(s: string, sub: string) {
    exists i: nat | i <= |s| :: OccursAt(s, sub, i)
  }

  /** Python's `s.split(sep)` for a non-empty separator: the pieces between the
      leftmost non-overlapping occurrences of `sep`. */
  function Split(s: string, sep: string): (parts: seq<string>)
    requires |sep| > 0
    ensures |parts| >= 1
    decreases |s|
  {
    if |s| < |sep| then [s]
    else if s[..|sep|] == sep then [""] + Split(s[|sep|..], sep)
    else
      var rest := Split(s[1..], sep);
      [[s[0]] + rest[0]] + rest[1..]
  }

  /** Python's `sep.join(parts)`. */
  function Join(parts: seq<string>, sep: string): string
    decreases |parts|
  {
    if |parts| == 0 then ""
    else if |parts| == 1 then parts[0]
    else parts[0] + sep + Join(parts[1..], sep)
  }

  /** Splitting and joining again gives back the original string. */
  lemma {:induction false} JoinSplit(s: string, sep: string)
    requires |sep| > 0
    ensures Join(Split(s, sep), sep) == s
    decreases |s|
  {
    if |s| < |sep| {
    } else if s[..|sep|] == sep {
      var tail := s[|sep|..];
      assert Split(s, sep) == [""] + Split(tail, sep);
      JoinSplit(tail, sep);
      assert Join([""] + Split(tail, sep), sep) == s by {
        JoinInFront("", Split(tail, sep), sep);
        assert s == sep + tail;
      }
    } else {
      var tail := s[1..];
      var rest := Split(tail, sep);
      assert Split(s, sep) == [[s[0]] + rest[0]] + rest[1..];
      JoinSplit(tail, sep);
      assert Join([[s[0]] + rest[0]] + rest[1..], sep) == s by {
        JoinGlued([s[0]], rest, sep);
        assert s == [s[0]] + tail;
      }
    }
  }

  /** Joining with one more piece in front. */
  lemma JoinInFront(x: string, parts: seq<string>, sep: string)
    requires |parts| > 0
    ensures Join([x] + parts, sep) == x + sep + Join(parts, sep)
  {
    assert ([x] + parts)[1..] == parts;
  }

  /** Joining after gluing text to the front of the first piece. */
  lemma JoinGlued(x: string, parts: seq<string>, sep: string)
    requires |parts| > 0
    ensures Join([x + parts[0]] + parts[1..], sep) == x + Join(parts, sep)
  {
    var rest := parts[1..];
    if |rest| > 0 {
      assert ([x + parts[0]] + rest)[1..] == rest;
      assert x + parts[0] + sep + Join(rest, sep) == x + (parts[0] + sep + Join(rest, sep));
    }
  }

  /** A string without any occurrence of the separator is one piece. */
  lemma {:induction false} SplitWithoutSeparator(s: string, sep: string)
    requires |sep| > 0
    requires !Contains(s, sep)
    ensures Split(s, sep) == [s]
    decreases |s|
  {
    if |s| >= |sep| {
      assert !OccursAt(s, sep, 0);
      forall i: nat | i <= |s[1..]| && OccursAt(s[1..], sep, i)
        ensures false
      {
        assert s[1..][i..i + |sep|] == s[i + 1..i + 1 + |sep|];
        assert OccursAt(s, sep, i + 1);
      }
      SplitWithoutSeparator(s[1..], sep);
      assert [s[0]] + s[1..] == s;
    }
  }

  /** A string that starts with the separator splits off an empty first piece. */
  lemma SplitAtSeparator(sep: string, t: string)
    requires |sep| > 0
    ensures Split(sep + t, sep) == [""] + Split(t, sep)
  {
    assert (sep + t)[..|sep|] == sep;
    assert (sep + t)[|sep|..] == t;
  }

  /** A prefix that cannot start an occurrence of the separator (it does not
      hold the separator's first character) is glued to the first piece. */
  lemma {:induction false} SplitAfterFreePrefix(a: string, t: string, sep: string)
    requires |sep| > 0
    requires sep[0] !in a
    ensures Split(a + t, sep) == [a + Split(t, sep)[0]] + Split(t, sep)[1..]
    decreases |a|
  {
    if |a| == 0 {
      var p := Split(t, sep);
      assert a + t == t && a + p[0] == p[0];
      assert [p[0]] + p[1..] == p;
    } else {
      var s := a + t;
      assert s[0] == a[0];
      assert s[1..] == a[1..] + t;
      if |s| < |sep| {
        SplitWithoutSeparatorShort(t, sep);
      } else {
        assert s[..|sep|][0] == a[0];
        SplitAfterFreePrefix(a[1..], t, sep);
        assert [a[0]] + (a[1..] + Split(t, sep)[0]) == a + Split(t, sep)[0];
      }
    }
  }

  /** A string shorter than the separator is one piece. */
  lemma SplitWithoutSeparatorShort(t: string, sep: string)
    requires |sep| > 0 && |t| < |sep|
    ensures Split(t, sep) == [t]
  {
  }

  /** A separator-free prefix, the separator, and a separator-free remainder
      split into exactly those two pieces. */
  lemma SplitTwo(a: string, b: string, sep: string)
    requires |sep| > 0
    requires sep[0] !in a
    requires !Contains(b, sep)
    ensures Split(a + sep + b, sep) == [a, b]
  {
    var t := sep + b;
    var p := Split(t, sep);
    assert p == ["", b] by {
      SplitAtSeparator(sep, b);
      SplitWithoutSeparator(b, sep);
    }
    assert Split(a + t, sep) == [a + p[0]] + p[1..] by {
      SplitAfterFreePrefix(a, t, sep);
    }
    assert p[0] == "" && p[1..] == [b];
    assert a + p[0] == a;
    assert [a] + [b] == [a, b];
    assert a + sep + b == a + t;
  }

  lemma EmptyPrefix(s: string, t: string)
    ensures "" + s + t == s + t
  {
    assert "" + s == s;
  }

  /** A separator-free prefix followed by the separator is the first piece. */
  lemma SplitFreeHead(a: string, t: string, sep: string)
    requires |sep| > 0
    requires sep[0] !in a
    ensures Split(a + sep + t, sep) == [a] + Split(t, sep)
  {
    var p := Split(sep + t, sep);
    assert p == [""] + Split(t, sep) by {
      SplitAtSeparator(sep, t);
    }
    assert Split(a + (sep + t), sep) == [a + p[0]] + p[1..] by {
      SplitAfterFreePrefix(a, sep + t, sep);
    }
    assert p[0] == "" && p[1..] == Split(t, sep);
    assert a + p[0] == a;
    assert a + sep + t == a + (sep + t);
  }

  /** The first piece is a prefix of the string. */
  lemma {:induction false} SplitFirstPrefix(s: string, sep: string)
    requires |sep| > 0
    ensures Split(s, sep)[0] <= s
    decreases |s|
  {
    if |s| >= |sep| && s[..|sep|] != sep {
      SplitFirstPrefix(s[1..], sep);
      var rest := Split(s[1..], sep);
      assert rest[0] <= s[1..];
      assert [s[0]] + rest[0] == s[..|rest[0]| + 1];
    }
  }

  /** No piece contains the separator. */
  lemma {:induction false} SplitPiecesFree(s: string, sep: string, k: nat)
    requires |sep| > 0 && k < |Split(s, sep)|
    ensures !Contains(Split(s, sep)[k], sep)
    decreases |s|
  {
    if |s| < |sep| {
    } else if s[..|sep|] == sep {
      if k > 0 {
        SplitPiecesFree(s[|sep|..], sep, k - 1);
      }
    } else {
      var rest := Split(s[1..], sep);
      if k > 0 {
        SplitPiecesFree(s[1..], sep, k);
      } else {
        SplitPiecesFree(s[1..], sep, 0);
        SplitFirstPrefix(s[1..], sep);
        var p := [s[0]] + rest[0];
        assert p == s[..|p|];
        forall i: nat | i <= |p| && OccursAt(p, sep, i)
          ensures false
        {
          if i > 0 {
            assert rest[0][i - 1..i - 1 + |sep|] == p[i..i + |sep|];
            assert OccursAt(rest[0], sep, i - 1);
          }
        }
      }
    }
  }

  /** The string splits into two or more pieces exactly when it contains the
      separator. */
  lemma SplitCount(s: string, sep: string)
    requires |sep| > 0
    ensures |Split(s, sep)| >= 2 <==> Contains(s, sep)
  {
    if !Contains(s, sep) {
      SplitWithoutSeparator(s, sep);
    } else if |Split(s, sep)| == 1 {
      JoinSplit(s, sep);
      SplitPiecesFree(s, sep, 0);
    }
  }
  /** A string lacking the first character of `sub` does not contain `sub`. */
  lemma NotContainsByFirstChar(s: string, sub: string)
    requires |sub| > 0 && sub[0] !in s
    ensures !Contains(s, sub)
  {
  }

  /** A string lacking any one character of `sub` does not contain `sub`. */
  lemma NotContainsByChar(s: string, sub: string, k: nat)
    requires k < |sub| && sub[k] !in s
    ensures !Contains(s, sub)
  {
    assert forall i: nat | i <= |s| && OccursAt(s, sub, i) :: s[i + k] == sub[k];
  }

  // ---------------------------------------------------------------------
  // Decimal integers
  // ---------------------------------------------------------------------

  predicate IsDigit(c: char) {
    '0' <= c <= '9'
  }

  predicate AllDigits(s: string) {
    forall i | 0 <= i < |s| :: IsDigit(s[i])
  }

  function DigitChar(d: nat): (c: char)
    requires d < 10
    ensures IsDigit(c)
  {
    (('0' as int) + d) as char
  }

  function DigitValue(c: char): (d: nat)
    requires IsDigit(c)
    ensures d < 10 && DigitChar(d) == c
  {
    (c as int) - ('0' as int)
  }

  /** Python's `str(n)` for a non-negative integer. */
  function NatToString(n: nat): (s: string)
    ensures |s| >= 1 && AllDigits(s)
  {
    if n < 10 then [DigitChar(n)] else NatToString(n / 10) + [DigitChar(n % 10)]
  }

  /** The value of a string of decimal digits. */
  function DigitsValue(s: string): nat
    requires AllDigits(s)
  {
    if |s| == 0 then 0 else DigitsValue(s[..|s| - 1]) * 10 + DigitValue(s[|s| - 1])
  }

  /** Python's `str(i)` (and `f"{i}"`) for any integer. */
  function IntToString(i: int): (s: string)
    ensures |s| >= 1
    ensures i >= 0 <==> s[0] != '-'
  {
    if i < 0 then "-" + NatToString(-i) else NatToString(i)
  }

  /** Python's `int(s)` restricted to an optional sign followed by ASCII digits. */
  function ParseInt(s: string): (r: Option<int>)
    ensures |s| == 1 ==> r == if IsDigit(s[0]) then Some(DigitValue(s[0]) as int) else None
  {
    assert |s| == 1 ==> (AllDigits(s) <==> IsDigit(s[0]));
    assert |s| == 1 && IsDigit(s[0]) ==> s[..|s| - 1] == [] && DigitsValue(s) == DigitValue(s[0]);
    if |s| > 0 && (s[0] == '-' || s[0] == '+') then
      if |s| > 1 && AllDigits(s[1..]) then
        var v: int := DigitsValue(s[1..]);
        Some(if s[0] == '-' then -v else v)
      else None
    else if |s| > 0 && AllDigits(s) then Some(DigitsValue(s))
    else None
  }

  /** Reading back the decimal rendering of a natural number gives the number. */
  lemma {:induction false} NatToStringRoundTrip(n: nat)
    ensures DigitsValue(NatToString(n)) == n
  {
    if n >= 10 {
      NatToStringRoundTrip(n / 10);
      var s := NatToString(n);
      assert s[..|s| - 1] == NatToString(n / 10);
    }
  }

  /** A rendered integer is made of digits and at most a leading '-'. */
  lemma IntToStringChars(i: int)
    ensures forall c | c in IntToString(i) :: IsDigit(c) || c == '-'
  {
    if i < 0 {
      assert forall c | c in IntToString(i) :: c == '-' || c in NatToString(-i);
    }
  }

  /** `int(str(i)) == i`. */
  lemma IntToStringRoundTrip(i: int)
    ensures ParseInt(IntToString(i)) == Some(i)
  {
    var s := IntToString(i);
    if i < 0 {
      var digits := NatToString(-i);
      NatToStringRoundTrip(-i);
      assert s == "-" + digits;
      assert s[0] == '-' && s[1..] == digits;
      assert |s| > 1 && AllDigits(s[1..]);
      assert DigitsValue(s[1..]) == -i;
    } else {
      NatToStringRoundTrip(i);
      assert s == NatToString(i);
      assert IsDigit(s[0]);
      assert s[0] != '-' && s[0] != '+';
    }
  }

  /** Different natural numbers have different renderings. */
  lemma NatToStringInjective(m: nat, n: nat)
    requires NatToString(m) == NatToString(n)
    ensures m == n
  {
    NatToStringRoundTrip(m);
    NatToStringRoundTrip(n);
  }

  // ---------------------------------------------------------------------
  // Letters
  // ---------------------------------------------------------------------

  predicate IsUpper(c: char) {
    'A' <= c <= 'Z'
  }

  predicate IsLower(c: char) {
    'a' <= c <= 'z'
  }

  /** Python's `lower()` on one character, for ASCII letters. */
  function ToLower(c: char): (l: char)
    ensures IsUpper(c) ==> IsLower(l) && (l as int) == (c as int) + 32
    ensures !IsUpper(c) ==> l == c
  {
    if IsUpper(c) then ((c as int) + 32) as char else c
  }

  function Lower(s: string): (l: string)
    ensures |l| == |s| && forall i | 0 <= i < |s| :: l[i] == ToLower(s[i])
  {
    if |s| == 0 then [] else [ToLower(s[0])] + Lower(s[1..])
  }

  // ---------------------------------------------------------------------
  // Whitespace-separated words
  // ---------------------------------------------------------------------

  /** The characters Python's `str.split()` treats as whitespace. */
  predicate IsSpace(c: char) {
    c in {'\U{0009}', '\U{000A}', '\U{000B}', '\U{000C}', '\U{000D}', '\U{001C}', '\U{001D}', '\U{001E}',
          '\U{001F}', '\U{0020}', '\U{0085}', '\U{00A0}', '\U{1680}', '\U{2000}', '\U{2001}', '\U{2002}',
          '\U{2003}', '\U{2004}', '\U{2005}', '\U{2006}', '\U{2007}', '\U{2008}', '\U{2009}', '\U{200A}',
          '\U{2028}', '\U{2029}', '\U{202F}', '\U{205F}', '\U{3000}'}
  }

  predicate NoSpace(w: string) {
    forall i | 0 <= i < |w| :: !IsSpace(w[i])
  }

  /** Length of the longest whitespace-free prefix. */
  function WordLength(s: string): (n: nat)
    ensures n <= |s| && NoSpace(s[..n])
    ensures n < |s| ==> IsSpace(s[n])
  {
    if |s| == 0 || IsSpace(s[0]) then 0
    else
      var n := 1 + WordLength(s[1..]);
      assert s[..n] == [s[0]] + s[1..][..n - 1];
      n
  }

  /** Python's `s.split()`: the maximal runs of non-whitespace characters. */
  function Words(s: string): (ws: seq<string>)
    ensures forall k | 0 <= k < |ws| :: |ws[k]| > 0 && NoSpace(ws[k])
    decreases |s|
  {
    if |s| == 0 then []
    else if IsSpace(s[0]) then Words(s[1..])
    else
      var n := WordLength(s);
      [s[..n]] + Words(s[n..])
  }

  lemma {:induction false} WordLengthOfWord(w: string, t: string)
    requires NoSpace(w)
    requires |t| == 0 || IsSpace(t[0])
    ensures WordLength(w + t) == |w|
    decreases |w|
  {
    if |w| > 0 {
      assert (w + t)[0] == w[0];
      assert (w + t)[1..] == w[1..] + t;
      WordLengthOfWord(w[1..], t);
    } else {
      assert w + t == t;
    }
  }

  /** Joining non-empty words with single spaces and splitting on whitespace
      gives the words back. */
  lemma {:induction false} WordsOfJoin(ws: seq<string>)
    requires forall k | 0 <= k < |ws| :: |ws[k]| > 0 && NoSpace(ws[k])
    ensures Words(Join(ws, " ")) == ws
    decreases |ws|
  {
    if |ws| == 1 {
      var w := ws[0];
      WordLengthOfWord(w, "");
      assert w + "" == w;
      assert w[..|w|] == w && w[|w|..] == "";
    } else if |ws| > 1 {
      var w, rest := ws[0], Join(ws[1..], " ");
      var s := w + " " + rest;
      assert Join(ws, " ") == s;
      assert s == w + (" " + rest);
      WordLengthOfWord(w, " " + rest);
      assert s[..|w|] == w;
      assert s[|w|..] == " " + rest;
      assert (" " + rest)[1..] == rest;
      WordsOfJoin(ws[1..]);
      assert ws == [w] + ws[1..];
    }
  }
}
