/**
 * The `std::istringstream` extractions the interpreter uses on a line, with the
 * stream represented by the text not yet consumed: `>> std::string` (a word),
 * `>> int` and `>> char`, and `std::to_string` on an int.
 */
module Tokens {
  import opened Text

  /** The outcome of one extraction: the value and the unread text, or the stream's fail state. */
  datatype Read<T> = Got(value: T, rest: string) | Failed

  // ---------------------------------------------------------------- words

  /** The end of the word that starts at i: the first blank at or after i, or |s|. */
  function WordEnd(s: string, i: nat): (k: nat)
    requires i <= |s|
    ensures i <= k <= |s|
    ensures forall j :: i <= j < k ==> !IsBlank(s[j])
    ensures k < |s| ==> IsBlank(s[k])
    decreases |s| - i
  {
    if i < |s| && !IsBlank(s[i]) then WordEnd(s, i + 1) else i
  }

  /** `iss >> word`: skip blanks, then read up to the next blank; fails when only blanks remain. */
  function ExtractWord(s: string): (r: Read<string>)
    ensures r.Got? ==> |r.value| > 0 && NoBlank(r.value)
    ensures r.Got? ==> |r.rest| < |s| && (|r.rest| > 0 ==> IsBlank(r.rest[0]))
  {
    var a := SkipBlanks(s, 0);
    if a == |s| then Failed
    else
      var b := WordEnd(s, a);
      Got(s[a..b], s[b..])
  }

  /** A word followed by a blank or the end of the line is read back whole, after any leading blanks. */
  lemma ExtractWordRoundTrip(pad: string, w: string, rest: string)
    requires forall i :: 0 <= i < |pad| ==> IsBlank(pad[i])
    requires |w| > 0 && NoBlank(w)
    requires |rest| > 0 ==> IsBlank(rest[0])
    ensures ExtractWord(pad + w + rest) == Got(w, rest)
  {
    var s := pad + w + rest;
    var a, b := |pad|, |pad| + |w|;
    assert s[a] == w[0];
    SkipBlanksAt(s, 0, a);
    forall j | a <= j < b ensures !IsBlank(s[j]) {
      assert s[j] == w[j - a];
    }
    if b < |s| {
      assert s[b] == rest[0];
    }
    WordEndAt(s, a, b);
    assert s[a..b] == w;
    assert s[b..] == rest;
  }

  /** Blanks from i up to k, and none at k, put the first non-blank at k. */
  lemma SkipBlanksAt(s: string, i: nat, k: nat)
    requires i <= k <= |s|
    requires forall j :: i <= j < k ==> IsBlank(s[j])
    requires k < |s| ==> !IsBlank(s[k])
    ensures SkipBlanks(s, i) == k
  {
  }

  /** No blank from i up to k, and a blank or the end at k, end the word at k. */
  lemma WordEndAt(s: string, i: nat, k: nat)
    requires i <= k <= |s|
    requires forall j :: i <= j < k ==> !IsBlank(s[j])
    requires k < |s| ==> IsBlank(s[k])
    ensures WordEnd(s, i) == k
  {
  }

  /** Every word a `while (iss >> word)` loop reads, in order. */
  function Words(s: string): seq<string>
    decreases |s|
  {
    match ExtractWord(s)
    case Failed => []
    case Got(w, rest) => [w] + Words(rest)
  }

  /** Words written one after another, each after a single space. */
  function Unwords(ws: seq<string>): (s: string)
    ensures |s| > 0 ==> s[0] == ' '
  {
    if ws == [] then "" else " " + ws[0] + Unwords(ws[1..])
  }

  /** Reading the words back out of their spaced text gives the same words in the same order. */
  lemma {:induction false} WordsUnwords(ws: seq<string>)
    requires forall i :: 0 <= i < |ws| ==> |ws[i]| > 0 && NoBlank(ws[i])
    ensures Words(Unwords(ws)) == ws
  {
    if ws != [] {
      var rest := Unwords(ws[1..]);
      assert IsBlank(' ');
      ExtractWordRoundTrip(" ", ws[0], rest);
      assert Unwords(ws) == " " + ws[0] + rest;
      WordsUnwords(ws[1..]);
    } else {
      assert ExtractWord("") == Failed;
    }
  }

  // ---------------------------------------------------------------- integers

  predicate IsDigit(c: char)
  {
    '0' <= c <= '9'
  }

  function DigitValue(c: char): nat
    requires IsDigit(c)
  {
    (c as int) - ('0' as int)
  }

  /** Length of the longest prefix of s made of decimal digits. */
  function DigitRun(s: string): (n: nat)
    ensures n <= |s|
    ensures forall i :: 0 <= i < n ==> IsDigit(s[i])
    ensures n < |s| ==> !IsDigit(s[n])
  {
    if |s| == 0 || !IsDigit(s[0]) then 0 else 1 + DigitRun(s[1..])
  }

  /** The value of a string of decimal digits, most significant first. */
  function DecimalValue(d: string): nat
    requires forall i :: 0 <= i < |d| ==> IsDigit(d[i])
  {
    if d == [] then 0 else 10 * DecimalValue(d[..|d| - 1]) + DigitValue(d[|d| - 1])
  }

  const IntMin: int := -0x8000_0000
  const IntMax: int := 0x7FFF_FFFF

  predicate InIntRange(k: int)
  {
    IntMin <= k <= IntMax
  }

  /**
   * `iss >> n` for an int n: skip blanks, an optional '+' or '-', then at least
   * one digit; the stream fails when there is no digit or the value does not fit in an int.
   */
  function ExtractInt(s: string): (r: Read<int>)
    ensures r.Got? ==> InIntRange(r.value)
    ensures r.Got? ==> |r.rest| == 0 || !IsDigit(r.rest[0])
  {
    var t := TrimLeft(s);
    if |t| > 0 && (t[0] == '-' || t[0] == '+') then ExtractMagnitude(t[1..], t[0] == '-')
    else ExtractMagnitude(t, false)
  }

  /** The digits after the sign; neg says whether the sign was '-'. */
  function ExtractMagnitude(u: string, neg: bool): (r: Read<int>)
    ensures r.Got? ==> InIntRange(r.value)
    ensures r.Got? ==> |r.rest| == 0 || !IsDigit(r.rest[0])
  {
    var n := DigitRun(u);
    if n == 0 then Failed
    else
      var m := DecimalValue(u[..n]) as int;
      var v := if neg then -m else m;
      if InIntRange(v) then Got(v, u[n..]) else Failed
  }

  /** `iss >> c` for a char c: skip blanks and take one character. */
  function ExtractChar(s: string): (r: Read<char>)
    ensures r.Got? ==> !IsBlank(r.value) && |r.rest| < |s|
    ensures r.Failed? <==> forall i :: 0 <= i < |s| ==> IsBlank(s[i])
  {
    var t := TrimLeft(s);
    if t == [] then Failed else Got(t[0], t[1..])
  }

  // ---------------------------------------------------------------- to_string

  function DigitChar(d: nat): char
    requires d < 10
  {
    ('0' as int + d) as char
  }

  /** The decimal digits of n, without leading zeros ("0" for zero). */
  function NatToString(n: nat): (s: string)
    ensures |s| > 0 && forall i :: 0 <= i < |s| ==> IsDigit(s[i])
    ensures |s| > 1 ==> s[0] != '0'
  {
    if n < 10 then [DigitChar(n)] else NatToString(n / 10) + [DigitChar(n % 10)]
  }

  /** `std::to_string(int)`: a '-' sign for negative values, then the digits of the magnitude. */
  function IntToString(k: int): string
  {
    if k < 0 then "-" + NatToString(-k) else NatToString(k)
  }

  /** The text of an int is a single word: a '-' and digits, without blanks. */
  lemma IntegerWord(k: int)
    ensures |IntToString(k)| > 0 && NoBlank(IntToString(k))
    ensures forall i :: 0 <= i < |IntToString(k)| ==> IntToString(k)[i] == '-' || IsDigit(IntToString(k)[i])
  {
    var s := IntToString(k);
    if k < 0 {
      var d := NatToString(-k);
      assert s == "-" + d;
      forall i | 1 <= i < |s| ensures IsDigit(s[i]) {
        assert s[i] == d[i - 1];
      }
    }
  }

  /** Reading the digits of n back gives n. */
  lemma {:induction false} NatToStringValue(n: nat)
    ensures DecimalValue(NatToString(n)) == n
  {
    if n >= 10 {
      var s := NatToString(n);
      assert s[..|s| - 1] == NatToString(n / 10);
      NatToStringValue(n / 10);
    }
  }

  /** `iss >> n` reads back what `std::to_string` wrote, for every int, when the text ends or a non-digit follows. */
  lemma IntRoundTrip(k: int, rest: string)
    requires InIntRange(k)
    requires |rest| > 0 ==> !IsDigit(rest[0])
    ensures ExtractInt(IntToString(k) + rest) == Got(k, rest)
  {
    var x := IntToString(k) + rest;
    if k < 0 {
      var m: nat := -k;
      var t := NatToString(m) + rest;
      NegativeText(k, m, rest, x, t);
      NegativeRoundTrip(k, m, rest, x, t);
    } else {
      NonNegativeRoundTrip(k, rest);
    }
  }

  lemma NegativeText(k: int, m: nat, rest: string, x: string, t: string)
    requires k < 0 && m == -k && x == IntToString(k) + rest && t == NatToString(m) + rest
    ensures x == ['-'] + t
  {
  }

  lemma NegativeRoundTrip(k: int, m: nat, rest: string, x: string, t: string)
    requires InIntRange(k) && k < 0 && m == -k
    requires |rest| > 0 ==> !IsDigit(rest[0])
    requires t == NatToString(m) + rest && x == ['-'] + t
    ensures ExtractInt(x) == Got(k, rest)
  {
    MagnitudeOf(m, rest, true);
    SignedText(x, t, '-');
  }

  lemma NonNegativeRoundTrip(k: int, rest: string)
    requires InIntRange(k) && k >= 0
    requires |rest| > 0 ==> !IsDigit(rest[0])
    ensures ExtractInt(IntToString(k) + rest) == Got(k, rest)
  {
    var t := NatToString(k) + rest;
    MagnitudeOf(k, rest, false);
    assert t[0] == NatToString(k)[0];
    UnsignedText(t);
  }

  /** After a blank, an int written by `to_string` reads back the same way. */
  lemma IntAfterBlank(k: int, rest: string)
    requires InIntRange(k)
    requires |rest| > 0 ==> !IsDigit(rest[0])
    ensures ExtractInt(" " + IntToString(k) + rest) == Got(k, rest)
  {
    var x := IntToString(k) + rest;
    IntegerWord(k);
    assert x[0] == IntToString(k)[0];
    var y := " " + IntToString(k) + rest;
    assert y[1..] == x && y[1] == x[0];
    SkipBlanksAt(y, 0, 1);
    assert TrimLeft(y) == x;
    IntRoundTrip(k, rest);
  }

  lemma SignedText(x: string, t: string, sign: char)
    requires sign == '-' || sign == '+'
    requires x == [sign] + t
    ensures ExtractInt(x) == ExtractMagnitude(t, sign == '-')
  {
    assert SkipBlanks(x, 0) == 0;
    assert TrimLeft(x) == x;
    assert x[1..] == t;
  }

  lemma UnsignedText(t: string)
    requires |t| > 0 && IsDigit(t[0])
    ensures ExtractInt(t) == ExtractMagnitude(t, false)
  {
    assert TrimLeft(t) == t;
  }

  lemma MagnitudeOf(m: nat, rest: string, neg: bool)
    requires InIntRange(if neg then -(m as int) else m)
    requires |rest| > 0 ==> !IsDigit(rest[0])
    ensures ExtractMagnitude(NatToString(m) + rest, neg) == Got(if neg then -(m as int) else m, rest)
  {
    var d := NatToString(m);
    NatToStringValue(m);
    DigitRunOf(d, rest);
    assert (d + rest)[..|d|] == d;
    assert (d + rest)[|d|..] == rest;
  }

  lemma {:induction false} DigitRunOf(d: string, rest: string)
    requires forall i :: 0 <= i < |d| ==> IsDigit(d[i])
    requires |rest| > 0 ==> !IsDigit(rest[0])
    ensures DigitRun(d + rest) == |d|
  {
    if |d| > 0 {
      assert (d + rest)[1..] == d[1..] + rest;
      DigitRunOf(d[1..], rest);
    } else {
      assert d + rest == rest;
    }
  }
}
