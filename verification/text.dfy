/**
 * String utilities of the interpreter: the whitespace set, trimming a line,
 * `std::string::find`, the replace-all loop `Parser::replaceVar`, and
 * `std::reverse` on a sequence.
 */
module Text {

  /** The characters `" \n\r\t\f\v"` that trimming and stream extraction treat as blanks. */
  predicate IsBlank(c: char)
  {
    c == ' ' || c == '\n' || c == '\r' || c == '\t' || c == '\U{000C}' || c == '\U{000B}'
  }

  /** No character of s is a blank. */
  predicate NoBlank(s: string)
  {
    forall i :: 0 <= i < |s| ==> !IsBlank(s[i])
  }

  // ---------------------------------------------------------------- trimming

  /** `s.find_first_not_of(blanks, i)`: the first position at or after i without a blank, or |s| for npos. */
  function SkipBlanks(s: string, i: nat): (k: nat)
    requires i <= |s|
    ensures i <= k <= |s|
    ensures forall j :: i <= j < k ==> IsBlank(s[j])
    ensures k < |s| ==> !IsBlank(s[k])
    decreases |s| - i
  {
    if i < |s| && IsBlank(s[i]) then SkipBlanks(s, i + 1) else i
  }

  /** The length of the prefix s[..n] once the blanks at its end are cut: `find_last_not_of(blanks) + 1`, or 0 for npos. */
  function KeptLength(s: string, n: nat): (m: nat)
    requires n <= |s|
    ensures m <= n
    ensures forall j :: m <= j < n ==> IsBlank(s[j])
    ensures m > 0 ==> !IsBlank(s[m - 1])
  {
    if n > 0 && IsBlank(s[n - 1]) then KeptLength(s, n - 1) else n
  }

  /** `s.substr(s.find_first_not_of(blanks))`, or "" when s is all blanks. */
  function TrimLeft(s: string): (r: string)
    ensures |r| <= |s| && r == s[|s| - |r|..]
    ensures |r| > 0 ==> !IsBlank(r[0])
    ensures forall i :: 0 <= i < |s| - |r| ==> IsBlank(s[i])
  {
    s[SkipBlanks(s, 0)..]
  }

  /** `s.substr(0, s.find_last_not_of(blanks) + 1)`, or "" when s is all blanks. */
  function TrimRight(s: string): (r: string)
    ensures |r| <= |s| && r == s[..|r|]
    ensures |r| > 0 ==> !IsBlank(r[|r| - 1])
    ensures forall i :: |r| <= i < |s| ==> IsBlank(s[i])
  {
    s[..KeptLength(s, |s|)]
  }

  /** The first half of `Parser::formatLine`: blanks removed from both ends. */
  function Trim(s: string): string
  {
    TrimRight(TrimLeft(s))
  }

  /**
   * The trimmed line is the slice s[a..b]: every character cut off is a blank
   * and neither end of the slice is a blank.
   */
  lemma TrimSlice(s: string) returns (a: nat, b: nat)
    ensures a <= b <= |s| && Trim(s) == s[a..b]
    ensures forall i :: 0 <= i < a ==> IsBlank(s[i])
    ensures forall i :: b <= i < |s| ==> IsBlank(s[i])
    ensures a < b ==> !IsBlank(s[a]) && !IsBlank(s[b - 1])
  {
    var l := TrimLeft(s);
    var t := TrimRight(l);
    a := |s| - |l|;
    b := a + |t|;
    assert t == s[a..b];
    forall i | b <= i < |s| ensures IsBlank(s[i]) {
      assert s[i] == l[i - a];
    }
    if a < b {
      assert s[a] == l[0];
      assert s[b - 1] == t[|t| - 1];
    }
  }

  /** Trimming a trimmed line changes nothing. */
  lemma TrimIdempotent(s: string)
    ensures Trim(Trim(s)) == Trim(s)
  {
    var t := Trim(s);
    var a, b := TrimSlice(s);
    if |t| > 0 {
      assert t[0] == s[a] && t[|t| - 1] == s[b - 1];
      assert TrimLeft(t) == t;
      assert TrimRight(t) == t;
    }
  }

  // ---------------------------------------------------------------- find and replace

  /** pat occurs in s starting at position k. */
  predicate OccursAt(s: string, pat: string, k: nat)
  {
    k + |pat| <= |s| && MatchesFrom(s, pat, k, 0)
  }

  /** The characters of pat from m on agree with those of s from k + m on. */
  predicate MatchesFrom(s: string, pat: string, k: nat, m: nat)
    requires k + |pat| <= |s|
    decreases |pat| - m
  {
    m >= |pat| || (s[k + m] == pat[m] && MatchesFrom(s, pat, k, m + 1))
  }

  /** `s.find(pat, start)`: the least position at or after start where pat occurs, or None for npos. */
  function Find(s: string, pat: string, start: nat): (r: Option<nat>)
    ensures r.Some? ==> start <= r.value && OccursAt(s, pat, r.value)
    ensures r.Some? ==> forall k :: start <= k < r.value ==> !OccursAt(s, pat, k)
    ensures r.None? ==> forall k :: start <= k ==> !OccursAt(s, pat, k)
    decreases |s| - start
  {
    if start + |pat| > |s| then None
    else if OccursAt(s, pat, start) then Some(start)
    else Find(s, pat, start + 1)
  }

  datatype Option<T> = None | Some(value: T)

  /**
   * Every occurrence of pat in s from position i on replaced by rep, scanning
   * left to right. Occurrences do not overlap and the inserted text is never
   * scanned again.
   */
  function ReplaceFrom(s: string, pat: string, rep: string, i: nat): string
    requires |pat| > 0 && i <= |s|
    decreases |s| - i
  {
    if i + |pat| > |s| then s[i..]
    else if OccursAt(s, pat, i) then rep + ReplaceFrom(s, pat, rep, i + |pat|)
    else [s[i]] + ReplaceFrom(s, pat, rep, i + 1)
  }

  /** Every occurrence of pat in s replaced by rep. */
  function ReplaceAll(s: string, pat: string, rep: string): string
    requires |pat| > 0
  {
    ReplaceFrom(s, pat, rep, 0)
  }

  /** Text in which pat does not occur from i on is copied. */
  lemma {:induction false} ReplaceFromAbsent(s: string, pat: string, rep: string, i: nat)
    requires |pat| > 0 && i <= |s|
    requires forall k :: i <= k ==> !OccursAt(s, pat, k)
    ensures ReplaceFrom(s, pat, rep, i) == s[i..]
    decreases |s| - i
  {
    if i + |pat| <= |s| {
      assert !OccursAt(s, pat, i);
      ReplaceFromAbsent(s, pat, rep, i + 1);
      assert s[i..] == [s[i]] + s[i + 1..];
    }
  }

  /** Text in which pat does not occur is left as it is. */
  lemma ReplaceAllAbsent(s: string, pat: string, rep: string)
    requires |pat| > 0
    requires forall k :: 0 <= k ==> !OccursAt(s, pat, k)
    ensures ReplaceAll(s, pat, rep) == s
  {
    ReplaceFromAbsent(s, pat, rep, 0);
    assert s[0..] == s;
  }

  /**
   * Up to the first occurrence at or after i, at k, the text is copied; the
   * occurrence becomes rep and the scan resumes after it.
   */
  lemma {:induction false} ReplaceFromFirst(s: string, pat: string, rep: string, i: nat, k: nat)
    requires |pat| > 0 && i <= k && OccursAt(s, pat, k)
    requires forall j :: i <= j < k ==> !OccursAt(s, pat, j)
    ensures ReplaceFrom(s, pat, rep, i) == s[i..k] + rep + ReplaceFrom(s, pat, rep, k + |pat|)
    decreases k - i
  {
    if i < k {
      assert !OccursAt(s, pat, i);
      ReplaceFromFirst(s, pat, rep, i + 1, k);
      assert s[i..k] == [s[i]] + s[i + 1..k];
      Regroup(s[i], s[i + 1..k], s[i..k], rep, ReplaceFrom(s, pat, rep, k + |pat|));
    } else {
      assert s[i..k] == [];
    }
  }

  lemma Regroup(c: char, a: string, p: string, b: string, x: string)
    requires [c] + a == p
    ensures [c] + (a + b + x) == p + b + x
  {
  }

  /** Whether pat occurs at i depends only on the text from i on. */
  lemma OccursAtSuffix(s: string, t: string, pat: string, i: nat, j: nat)
    requires i <= |s| && j <= |t| && s[i..] == t[j..]
    ensures OccursAt(s, pat, i) == OccursAt(t, pat, j)
  {
    if i + |pat| <= |s| {
      MatchesSuffix(s, t, pat, i, j, 0);
    }
  }

  lemma {:induction false} MatchesSuffix(s: string, t: string, pat: string, i: nat, j: nat, m: nat)
    requires i + |pat| <= |s| && j <= |t| && s[i..] == t[j..]
    ensures j + |pat| <= |t|
    ensures MatchesFrom(s, pat, i, m) == MatchesFrom(t, pat, j, m)
    decreases |pat| - m
  {
    assert |s| - i == |t| - j;
    if m < |pat| {
      assert s[i + m] == s[i..][m] == t[j..][m] == t[j + m];
      MatchesSuffix(s, t, pat, i, j, m + 1);
    }
  }

  /** A text matches itself. */
  lemma {:induction false} MatchesSelf(pat: string, m: nat)
    ensures MatchesFrom(pat, pat, 0, m)
    decreases |pat| - m
  {
    if m < |pat| {
      MatchesSelf(pat, m + 1);
    }
  }

  /** The replacement text is not rescanned: replacing pat by a text that contains pat terminates after one step. */
  lemma ReplaceAllOnce(pat: string, rep: string)
    requires |pat| > 0
    ensures ReplaceAll(pat, pat, rep) == rep
  {
    MatchesSelf(pat, 0);
    assert OccursAt(pat, pat, 0);
    assert ReplaceFrom(pat, pat, rep, |pat|) == [];
  }

  /**
   * `Parser::replaceVar`: find pat from the current position, splice rep in,
   * and continue after the inserted text. The ghost p is the position in the
   * original text that corresponds to pos: the part of r from pos on is still
   * untouched text.
   */
  method ReplaceVar(str: string, pat: string, rep: string) returns (r: string)
    requires |pat| > 0
    ensures r == ReplaceAll(str, pat, rep)
  {
    r := str;
    var pos: nat := 0;
    ghost var p: nat := 0;
    assert r[..pos] == [] && r[pos..] == str[p..];
    while true
      invariant ScanState(str, pat, rep, r, pos, p)
      decreases |r| - pos
    {
      var found := Find(r, pat, pos);
      if found.None? {
        ReplaceDone(str, r, pat, rep, pos, p);
        return;
      }
      var k := found.value;
      var next := r[..k] + rep + r[k + |pat|..];
      ReplaceStep(str, r, next, pat, rep, pos, p, k);
      r, pos, p := next, k + |rep|, p + (k - pos) + |pat|;
    }
  }

  /**
   * Where the replace loop stands: r from pos on is still the original text
   * from p on, and finishing the scan of the original there completes the
   * result.
   */
  ghost predicate ScanState(str: string, pat: string, rep: string, r: string, pos: nat, p: nat)
    requires |pat| > 0
  {
    pos <= |r| && p <= |str| && r[pos..] == str[p..] &&
    ReplaceAll(str, pat, rep) == r[..pos] + ReplaceFrom(str, pat, rep, p)
  }

  /** Text that equals a suffix of the original still does after both are shortened by the same amount. */
  lemma SuffixShift(r: string, str: string, pos: nat, p: nat, d: nat)
    requires pos <= |r| && p <= |str| && r[pos..] == str[p..] && d <= |r| - pos
    ensures p + d <= |str| && r[pos + d..] == str[p + d..]
  {
    assert r[pos + d..] == r[pos..][d..];
    assert str[p + d..] == str[p..][d..];
  }

  /** An occurrence in r at or after pos is one in the original text, shifted by p - pos. */
  lemma OccursShifted(r: string, str: string, pat: string, pos: nat, p: nat, j: nat)
    requires pos <= |r| && p <= |str| && r[pos..] == str[p..] && pos <= j
    ensures OccursAt(r, pat, j) == OccursAt(str, pat, p + (j - pos))
  {
    if j <= |r| {
      SuffixShift(r, str, pos, p, j - pos);
      OccursAtSuffix(r, str, pat, j, p + (j - pos));
    }
  }

  /** With no occurrence at or after pos, the text is complete. */
  lemma ReplaceDone(str: string, r: string, pat: string, rep: string, pos: nat, p: nat)
    requires |pat| > 0 && ScanState(str, pat, rep, r, pos, p)
    requires forall k :: pos <= k ==> !OccursAt(r, pat, k)
    ensures r == ReplaceAll(str, pat, rep)
  {
    forall j | p <= j ensures !OccursAt(str, pat, j) {
      OccursShifted(r, str, pat, pos, p, pos + (j - p));
    }
    ReplaceFromAbsent(str, pat, rep, p);
    assert r[..pos] + r[pos..] == r;
  }

  /**
   * One round of the replace loop: the first occurrence at or after pos is at
   * k; the text before it is kept, the occurrence becomes rep and the scan
   * resumes after the inserted text, at the matching place of the original.
   */
  lemma ReplaceStep(str: string, r: string, next: string, pat: string, rep: string, pos: nat, p: nat, k: nat)
    requires |pat| > 0 && ScanState(str, pat, rep, r, pos, p)
    requires pos <= k && OccursAt(r, pat, k)
    requires forall j :: pos <= j < k ==> !OccursAt(r, pat, j)
    requires next == r[..k] + rep + r[k + |pat|..]
    ensures ScanState(str, pat, rep, next, k + |rep|, p + (k - pos) + |pat|)
    ensures |next| - (k + |rep|) < |r| - pos
  {
    var k' := p + (k - pos);
    var tail := ReplaceFrom(str, pat, rep, k' + |pat|);
    FirstInOriginal(str, r, pat, pos, p, k);
    calc {
      ReplaceAll(str, pat, rep);
      r[..pos] + ReplaceFrom(str, pat, rep, p);
      { ReplaceFromFirst(str, pat, rep, p, k'); }
      r[..pos] + (str[p..k'] + rep + tail);
      { SpliceShifted(str, r, rep, pos, p, k, |pat|, tail); }
      next[..k + |rep|] + tail;
    }
  }

  /** The first occurrence found in r is the first one in the original text from p on. */
  lemma FirstInOriginal(str: string, r: string, pat: string, pos: nat, p: nat, k: nat)
    requires pos <= |r| && p <= |str| && r[pos..] == str[p..]
    requires pos <= k && OccursAt(r, pat, k)
    requires forall j :: pos <= j < k ==> !OccursAt(r, pat, j)
    ensures OccursAt(str, pat, p + (k - pos))
    ensures forall j :: p <= j < p + (k - pos) ==> !OccursAt(str, pat, j)
  {
    forall j | p <= j < p + (k - pos) ensures !OccursAt(str, pat, j) {
      OccursShifted(r, str, pat, pos, p, pos + (j - p));
    }
    OccursShifted(r, str, pat, pos, p, k);
  }

  /** Splicing rep over the n characters at k of r keeps the text before and matches the original after. */
  lemma SpliceShifted(str: string, r: string, rep: string, pos: nat, p: nat, k: nat, n: nat, tail: string)
    requires pos <= k && k + n <= |r| && p <= |str| && r[pos..] == str[p..]
    ensures var next := r[..k] + rep + r[k + n..];
      var k' := p + (k - pos);
      k' + n <= |str| && k + |rep| <= |next| && next[k + |rep|..] == str[k' + n..] &&
      r[..pos] + (str[p..k'] + rep + tail) == next[..k + |rep|] + tail
  {
    var k' := p + (k - pos);
    SuffixShift(r, str, pos, p, k - pos + n);
    SpliceSlices(r, rep, k, k + n);
    assert str[p..k'] == r[pos..k] by {
      assert str[p..k'] == str[p..][..k - pos];
      assert r[pos..k] == r[pos..][..k - pos];
    }
    Regroup3(r[..pos], r[pos..k], rep, tail);
    assert r[..pos] + r[pos..k] == r[..k];
  }

  /** The two ends of a splice: the text up to the inserted part and the text after it. */
  lemma SpliceSlices(r: string, rep: string, k: nat, e: nat)
    requires k <= e <= |r|
    ensures var next := r[..k] + rep + r[e..];
      k + |rep| <= |next| && next[..k + |rep|] == r[..k] + rep && next[k + |rep|..] == r[e..]
  {
  }

  lemma Regroup3(a: string, b: string, c: string, x: string)
    ensures a + (b + c + x) == (a + b + c) + x
  {
  }

  // ---------------------------------------------------------------- reversal

  /** `std::reverse`. */
  function Reverse<T>(s: seq<T>): (r: seq<T>)
    ensures |r| == |s|
    ensures forall i :: 0 <= i < |s| ==> r[i] == s[|s| - 1 - i]
  {
    if s == [] then [] else Reverse(s[1..]) + [s[0]]
  }

  /** Reversing twice gives the original order back. */
  lemma ReverseReverse<T>(s: seq<T>)
    ensures Reverse(Reverse(s)) == s
  {
  }

  /** The reverse of a concatenation is the concatenation of the reverses, in the other order. */
  lemma ReverseAppend<T>(a: seq<T>, b: seq<T>)
    ensures Reverse(a + b) == Reverse(b) + Reverse(a)
  {
  }

  /** `s.rfind(prefix, 0) == 0`: s starts with prefix. */
  predicate StartsWith(s: string, prefix: string)
  {
    |prefix| <= |s| && s[..|prefix|] == prefix
  }
}
