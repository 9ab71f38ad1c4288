/**
 * Character classes and the small pieces of the C++ standard library the
 * source relies on: `isspace`/`isdigit`/`isalpha`/`isalnum` in the "C"
 * locale, splitting a line into words with `istringstream >>`, `std::stoi`
 * and the decimal printing of an `int` by `operator<<`.
 */
module Text {
  import opened Wrappers

  /** `isspace` in the "C" locale: space, \t, \n, \v, \f, \r. */
  predicate IsSpace(c: char) { c == ' ' || '\t' <= c <= '\r' }

  predicate IsDigit(c: char) { '0' <= c <= '9' }

  predicate IsAlpha(c: char) { 'a' <= c <= 'z' || 'A' <= c <= 'Z' }

  predicate IsAlnum(c: char) { IsDigit(c) || IsAlpha(c) }

  predicate AllDigits(s: string) { forall k :: 0 <= k < |s| ==> IsDigit(s[k]) }

  predicate StartsWith(s: string, prefix: string) {
    |prefix| <= |s| && s[..|prefix|] == prefix
  }

  /** The text with every whitespace character removed. */
  function StripSpace(s: string): (r: string)
    ensures |r| <= |s|
    ensures forall k :: 0 <= k < |r| ==> !IsSpace(r[k])
  {
    if s == [] then []
    else if IsSpace(s[0]) then StripSpace(s[1..])
    else [s[0]] + StripSpace(s[1..])
  }

  /** The end of the longest run starting at `i` whose characters satisfy `p`. */
  function RunEnd(s: string, i: nat, p: char -> bool): (j: nat)
    requires i <= |s|
    ensures i <= j <= |s|
    ensures forall k :: i <= k < j ==> p(s[k])
    ensures j == |s| || !p(s[j])
    decreases |s| - i
  {
    if i < |s| && p(s[i]) then RunEnd(s, i + 1, p) else i
  }

  /** A run that stops at `j` ends at `j`. */
  lemma {:induction false} RunEndUnique(s: string, i: nat, j: nat, p: char -> bool)
    requires i <= j <= |s|
    requires forall k :: i <= k < j ==> p(s[k])
    requires j == |s| || !p(s[j])
    ensures RunEnd(s, i, p) == j
    decreases j - i
  {
    if i < j {
      RunEndUnique(s, i + 1, j, p);
    }
  }

  function IsNotSpace(c: char): bool { !IsSpace(c) }

  /**
   * The words `istringstream >> word` extracts from a line, in order: the
   * maximal runs of non-whitespace characters (src/LiteScript.cpp:37, 44, 70).
   */
  function Words(s: string): (ws: seq<string>)
    decreases |s|
  {
    if s == [] then []
    else if IsSpace(s[0]) then Words(s[1..])
    else
      var j := RunEnd(s, 0, IsNotSpace);
      [s[..j]] + Words(s[j..])
  }

  predicate IsWord(w: string) {
    |w| > 0 && forall k :: 0 <= k < |w| ==> !IsSpace(w[k])
  }

  /** Words joined by single spaces. */
  function Unwords(ws: seq<string>): string {
    if ws == [] then ""
    else if |ws| == 1 then ws[0]
    else ws[0] + " " + Unwords(ws[1..])
  }

  /** Splitting words joined by spaces gives the words back. */
  lemma {:induction false} WordsUnwords(ws: seq<string>)
    requires forall k :: 0 <= k < |ws| ==> IsWord(ws[k])
    ensures Words(Unwords(ws)) == ws
  {
    if ws != [] {
      var w := ws[0];
      var s := Unwords(ws);
      var rest := if |ws| == 1 then "" else " " + Unwords(ws[1..]);
      assert s == w + rest;
      RunEndUnique(s, 0, |w|, IsNotSpace);
      assert s[..|w|] == w && s[|w|..] == rest;
      if |ws| > 1 {
        WordsUnwords(ws[1..]);
        assert rest[1..] == Unwords(ws[1..]);
        assert Words(rest) == Words(Unwords(ws[1..]));
      }
    }
  }

  function Concat(ws: seq<string>): string {
    if ws == [] then [] else ws[0] + Concat(ws[1..])
  }

  lemma {:induction false} ConcatAppend(a: seq<string>, b: seq<string>)
    ensures Concat(a + b) == Concat(a) + Concat(b)
  {
    if a == [] {
      assert a + b == b;
    } else {
      assert (a + b)[1..] == a[1..] + b;
      ConcatAppend(a[1..], b);
    }
  }

  lemma {:induction false} StripSpaceAppend(a: string, b: string)
    ensures StripSpace(a + b) == StripSpace(a) + StripSpace(b)
  {
    if a == [] {
      assert a + b == b;
    } else {
      assert (a + b)[1..] == a[1..] + b;
      StripSpaceAppend(a[1..], b);
    }
  }

  /**
   * Every word is non-empty and free of whitespace, and the words spell the
   * line with its whitespace removed.
   */
  lemma {:induction false} WordsSpellLine(s: string)
    ensures forall k :: 0 <= k < |Words(s)| ==>
              |Words(s)[k]| > 0 && forall m :: 0 <= m < |Words(s)[k]| ==> !IsSpace(Words(s)[k][m])
    ensures Concat(Words(s)) == StripSpace(s)
    decreases |s|
  {
    if s == [] {
    } else if IsSpace(s[0]) {
      WordsSpellLine(s[1..]);
    } else {
      var j := RunEnd(s, 0, IsNotSpace);
      WordsSpellLine(s[j..]);
      assert s == s[..j] + s[j..];
      StripSpaceAppend(s[..j], s[j..]);
      NoSpaceStrips(s[..j]);
      assert Words(s) == [s[..j]] + Words(s[j..]);
    }
  }

  lemma {:induction false} NoSpaceStrips(s: string)
    requires forall k :: 0 <= k < |s| ==> !IsSpace(s[k])
    ensures StripSpace(s) == s
  {
    if s != [] {
      NoSpaceStrips(s[1..]);
    }
  }

  // ----- integers and their decimal text -----

  function DigitValue(c: char): (d: nat)
    requires IsDigit(c)
    ensures d < 10
  {
    (c as int - '0' as int)
  }

  function DigitChar(d: nat): (c: char)
    requires d < 10
    ensures IsDigit(c) && DigitValue(c) == d
  {
    ('0' as int + d) as char
  }

  /** The value of a run of decimal digits, most significant first. */
  function DigitsValue(ds: string): nat
    requires AllDigits(ds)
  {
    if ds == [] then 0 else 10 * DigitsValue(ds[..|ds| - 1]) + DigitValue(ds[|ds| - 1])
  }

  /** How `operator<<` prints a non-negative integer. */
  function NatToString(n: nat): (s: string)
    ensures |s| > 0 && AllDigits(s)
  {
    if n < 10 then [DigitChar(n)] else NatToString(n / 10) + [DigitChar(n % 10)]
  }

  /** How `operator<<` prints an integer. */
  function IntToString(n: int): string {
    if n < 0 then "-" + NatToString(-n) else NatToString(n)
  }

  /**
   * `std::stoi`: optional leading whitespace, an optional sign, then a
   * non-empty run of digits whose value is the result; whatever follows the
   * run is ignored. No digits means `std::invalid_argument`, modelled as None.
   * Used at src/LiteScript.cpp:57.
   */
  function Stoi(s: string): (r: Option<int>)
  {
    var i := RunEnd(s, 0, IsSpace);
    var negative := i < |s| && s[i] == '-';
    var j := if i < |s| && (s[i] == '-' || s[i] == '+') then i + 1 else i;
    var k := RunEnd(s, j, IsDigit);
    if k == j then None
    else
      var v: int := DigitsValue(s[j..k]);
      Some(if negative then -v else v)
  }

  lemma {:induction false} NatToStringValue(n: nat)
    ensures DigitsValue(NatToString(n)) == n
  {
    if n >= 10 {
      NatToStringValue(n / 10);
      var s := NatToString(n);
      assert s[..|s| - 1] == NatToString(n / 10);
    }
  }

  /** Reading back what `operator<<` printed gives the same integer. */
  lemma StoiReadsIntToString(n: int)
    ensures Stoi(IntToString(n)) == Some(n)
  {
    var s := IntToString(n);
    var m: nat := if n < 0 then -n else n;
    var ds := NatToString(m);
    var j := if n < 0 then 1 else 0;
    assert s[j..] == ds;
    assert !IsSpace(s[0]);
    assert RunEnd(s, 0, IsSpace) == 0;
    assert j == 1 <==> s[0] == '-';
    assert j == 0 ==> s[0] != '+' && s[0] != '-';
    DigitRunToEnd(s, j);
    assert s[j..|s|] == ds;
    NatToStringValue(m);
  }

  lemma {:induction false} DigitRunToEnd(s: string, j: nat)
    requires j <= |s| && AllDigits(s[j..])
    ensures RunEnd(s, j, IsDigit) == |s|
    decreases |s| - j
  {
    if j < |s| {
      assert s[j..][0] == s[j];
      assert s[j + 1..] == s[j..][1..];
      DigitRunToEnd(s, j + 1);
    }
  }
}
