/**
 * A macro call and the program text. `customGate` hands `parseLine` each body
 * line of the program by reference (src/engine/Parser.cpp:287), and
 * `formatLine` assigns the trimmed, substituted text back to that reference
 * (Parser.cpp:83-96). The first call of a macro therefore replaces its body in
 * the program by the text of that call, and every later call parses the first
 * call's arguments. `CallAsWritten` models that; `BodyTexts` on the unchanged
 * program is the intended behaviour, and it is the one the interpreter in
 * module Parser follows (its `lines` are a constant).
 */
module Finding {
  import opened Text
  import opened Symbols
  import opened Formatting
  import Parser

  /** The texts one call parses: body lines lo..hi-1 (numbered from 1), each formatted against the stack. */
  function BodyTexts(lines: seq<string>, lo: int, hi: int, vars: seq<(string, string)>): (ts: seq<string>)
    requires StackNames(vars) && 1 <= lo && hi <= |lines| + 1
    ensures |ts| == (if hi > lo then hi - lo else 0)
  {
    if lo >= hi then [] else seq(hi - lo, i requires 0 <= i < hi - lo => Format(lines[lo - 1 + i], vars))
  }

  /**
   * As written: each body line is formatted where it is stored, so after the
   * call the program holds this call's texts in place of the body, and every
   * other line is as it was.
   */
  function CallAsWritten(lines: seq<string>, lo: int, hi: int, vars: seq<(string, string)>): (r: seq<string>)
    requires StackNames(vars) && 1 <= lo && hi <= |lines| + 1
    ensures |r| == |lines|
    ensures forall k :: lo - 1 <= k < hi - 1 ==> r[k] == Format(lines[k], vars)
    ensures forall k :: 0 <= k < |lines| && !(lo - 1 <= k < hi - 1) ==> r[k] == lines[k]
    decreases hi - lo
  {
    if lo >= hi then lines
    else CallAsWritten(lines[lo - 1 := Format(lines[lo - 1], vars)], lo + 1, hi, vars)
  }

  /**
   * Corrected: with the program left as it is, every body line a call parses
   * is its stored line, trimmed, with this call's own bindings substituted,
   * innermost first; the enclosing frames and earlier calls play no part.
   */
  lemma CallByValue(lines: seq<string>, d: DefinitionData, outer: seq<(string, string)>, args: seq<string>)
    requires StackNames(outer) && |args| == |d.variables| && AllVariables(d.variables)
    requires 0 <= d.defLine && d.endefLine <= |lines| + 1
    ensures StackNames(outer + [(Marker, Marker)] + Parser.Bindings(d.variables, args))
    ensures var ts := BodyTexts(lines, d.defLine + 1, d.endefLine, outer + [(Marker, Marker)] + Parser.Bindings(d.variables, args));
      forall i :: 0 <= i < |ts| ==> ts[i] == Substitute(Trim(lines[d.defLine + i]), Reverse(Parser.Bindings(d.variables, args)))
  {
    var inner := Parser.Bindings(d.variables, args);
    forall k | 0 <= k < |inner| ensures IsVariableName(inner[k].0) {
      assert inner[k].0 == d.variables[k];
    }
    var vars := outer + [(Marker, Marker)] + inner;
    StackNamesAround(outer, inner);
    var ts := BodyTexts(lines, d.defLine + 1, d.endefLine, vars);
    forall i | 0 <= i < |ts| ensures ts[i] == Substitute(Trim(lines[d.defLine + i]), Reverse(inner)) {
      FormatFrameOnly(lines[d.defLine + i], outer, inner);
    }
  }

  // ---------------------------------------------------------------- the counterexample

  /** A macro `f` with one parameter and a one-line body, at lines 1 to 3. */
  const Program: seq<string> := ["def f $q", "H $q", "endef"]

  /** The stack while `f a` runs at top level: the marker, then $q bound to a. */
  function CallOf(a: string): (vars: seq<(string, string)>)
    ensures StackNames(vars)
  {
    [(Marker, Marker), ("$q", a)]
  }

  /** The body line of `f` formatted for the call `f a`, for a single-character argument. */
  lemma FormatBody(s: string, a: char, vars: seq<(string, string)>)
    requires s == "H $q" && vars == CallOf([a])
    ensures Format(s, vars) == ['H', ' ', a]
  {
    assert SkipBlanks(s, 0) == 0;
    assert KeptLength(s, |s|) == |s|;
    assert s[0..] == s && s[..|s|] == s;
    assert Trim(s) == s;
    FormatFrameOnly(s, [], [("$q", [a])]);
    assert [] + [(Marker, Marker)] + [("$q", [a])] == vars;
    assert Reverse([("$q", [a])]) == [("$q", [a])];
    var pat := "$q";
    assert !OccursAt(s, pat, 0) && !OccursAt(s, pat, 1);
    assert MatchesFrom(s, pat, 2, 2);
    assert OccursAt(s, pat, 2);
    assert ReplaceFrom(s, pat, [a], 4) == [];
    assert ReplaceFrom(s, pat, [a], 2) == [a];
    assert ReplaceFrom(s, pat, [a], 0) == ['H', ' ', a];
  }

  /** A line with no blank at either end and no '$' is left as it is by formatting. */
  lemma FormatPlainLine(t: string, vars: seq<(string, string)>)
    requires StackNames(vars) && '$' !in t
    requires |t| > 0 && !IsBlank(t[0]) && !IsBlank(t[|t| - 1])
    ensures Format(t, vars) == t
  {
    assert SkipBlanks(t, 0) == 0;
    assert KeptLength(t, |t|) == |t|;
    assert t[0..] == t && t[..|t|] == t;
    FormatWithoutDollar(t, vars);
  }

  /** The texts of a call whose body is line 2 alone. */
  lemma OneLineBody(lines: seq<string>, vars: seq<(string, string)>)
    requires StackNames(vars) && |lines| >= 2
    ensures BodyTexts(lines, 2, 3, vars) == [Format(lines[1], vars)]
  {
  }

  /** The two calls of the example, on any program whose line 2 is the body of `f`. */
  lemma TwoCalls(prog: seq<string>, first: seq<(string, string)>, second: seq<(string, string)>)
    requires |prog| == 3 && prog[1] == "H $q" && first == CallOf("1") && second == CallOf("2")
    ensures BodyTexts(CallAsWritten(prog, 2, 3, first), 2, 3, second) == ["H 1"]
    ensures BodyTexts(prog, 2, 3, second) == ["H 2"]
  {
    var after := CallAsWritten(prog, 2, 3, first);
    FormatBody(prog[1], '1', first);
    var t := after[1];
    assert t == "H 1";
    FormatPlainLine(t, second);
    OneLineBody(after, second);
    OneLineBody(prog, second);
    FormatBody(prog[1], '2', second);
  }

  /** `f 1` and then `f 2`: as written, the second call parses "H 1", the first call's text. */
  lemma SecondCallSeesFirstArguments()
    ensures BodyTexts(CallAsWritten(Program, 2, 3, CallOf("1")), 2, 3, CallOf("2")) == ["H 1"]
  {
    TwoCalls(Program, CallOf("1"), CallOf("2"));
  }

  /** `f 1` and then `f 2`: with the program unchanged, the second call parses "H 2". */
  lemma SecondCallByValue()
    ensures BodyTexts(Program, 2, 3, CallOf("2")) == ["H 2"]
  {
    TwoCalls(Program, CallOf("1"), CallOf("2"));
  }
}
