/**
 * `Parser::formatLine`: a line is trimmed and then the variables of the
 * innermost frame of the substitution stack are replaced by their values,
 * innermost binding first. The stack is a sequence of (name, value) pairs,
 * outermost first; a macro call opens a frame by pushing the marker.
 */
module Formatting {
  import opened Text
  import opened Symbols

  /** The bindings of a stack, innermost first, as `formatLine` visits them after reversing the stack. */
  lemma StackNamesReverse(vars: seq<(string, string)>)
    requires StackNames(vars)
    ensures StackNames(Reverse(vars))
  {
    var r := Reverse(vars);
    forall k | 0 <= k < |r| ensures r[k].0 == Marker || IsVariableName(r[k].0) {
      assert r[k] == vars[|vars| - 1 - k];
    }
  }

  /**
   * Replace each binding of frame in turn, stopping at the first marker. A name
   * that is not the marker starts with '$', so it is never empty.
   */
  function Substitute(line: string, frame: seq<(string, string)>): string
    requires StackNames(frame)
    decreases |frame|
  {
    if frame == [] || frame[0].0 == Marker then line
    else Substitute(ReplaceAll(line, frame[0].0, frame[0].1), frame[1..])
  }

  /** The text `formatLine` leaves: the trimmed line with the innermost frame substituted. */
  function Format(line: string, vars: seq<(string, string)>): string
    requires StackNames(vars)
  {
    StackNamesReverse(vars);
    Substitute(Trim(line), Reverse(vars))
  }

  /** One binding of the frame: its name is a variable, so it is not empty, and it acts first. */
  lemma SubstituteStep(text: string, frame: seq<(string, string)>, i: nat)
    requires StackNames(frame) && i < |frame| && frame[i].0 != Marker
    ensures |frame[i].0| > 0
    ensures Substitute(text, frame[i..]) == Substitute(ReplaceAll(text, frame[i].0, frame[i].1), frame[i + 1..])
  {
    MarkerIsNoVariable(frame[i].0);
    assert frame[i..][0] == frame[i];
    assert frame[i..][1..] == frame[i + 1..];
  }

  /** At the end of the stack or at a marker, substitution leaves the text as it is. */
  lemma SubstituteDone(text: string, frame: seq<(string, string)>, i: nat)
    requires StackNames(frame) && i <= |frame| && (i == |frame| || frame[i].0 == Marker)
    ensures Substitute(text, frame[i..]) == text
  {
    if i < |frame| {
      assert frame[i..][0] == frame[i];
    }
  }

  // ---------------------------------------------------------------- properties

  /** Substitution stops at the marker: nothing after it is visited. */
  lemma {:induction false} SubstituteStops(line: string, f: seq<(string, string)>, rest: seq<(string, string)>)
    requires forall k :: 0 <= k < |f| ==> IsVariableName(f[k].0)
    requires StackNames(rest)
    ensures StackNames(f + [(Marker, Marker)] + rest)
    ensures Substitute(line, f + [(Marker, Marker)] + rest) == Substitute(line, f)
    decreases |f|
  {
    var all := f + [(Marker, Marker)] + rest;
    forall k | 0 <= k < |f| ensures f[k].0 != Marker {
      MarkerIsNoVariable(f[k].0);
    }
    if f != [] {
      assert all[0] == f[0];
      assert all[1..] == f[1..] + [(Marker, Marker)] + rest;
      SubstituteStops(ReplaceAll(line, f[0].0, f[0].1), f[1..], rest);
    } else {
      assert all[0].0 == Marker;
    }
  }

  /**
   * Only the bindings pushed after the most recent marker are substituted, the
   * latest first; the enclosing frames are ignored.
   */
  lemma FormatFrameOnly(line: string, outer: seq<(string, string)>, inner: seq<(string, string)>)
    requires StackNames(outer)
    requires forall k :: 0 <= k < |inner| ==> IsVariableName(inner[k].0)
    ensures StackNames(outer + [(Marker, Marker)] + inner)
    ensures StackNames(Reverse(inner))
    ensures Format(line, outer + [(Marker, Marker)] + inner) == Substitute(Trim(line), Reverse(inner))
  {
    var vars := outer + [(Marker, Marker)] + inner;
    StackNamesAround(outer, inner);
    var ri := ReversedNames(inner);
    var ro := Reverse(outer);
    StackNamesReverse(outer);
    ReverseAround(outer, inner);
    SubstituteStops(Trim(line), ri, ro);
  }

  lemma StackNamesAround(outer: seq<(string, string)>, inner: seq<(string, string)>)
    requires StackNames(outer)
    requires forall k :: 0 <= k < |inner| ==> IsVariableName(inner[k].0)
    ensures StackNames(outer + [(Marker, Marker)] + inner)
  {
  }

  lemma ReversedNames(inner: seq<(string, string)>) returns (ri: seq<(string, string)>)
    requires forall k :: 0 <= k < |inner| ==> IsVariableName(inner[k].0)
    ensures ri == Reverse(inner)
    ensures forall k :: 0 <= k < |ri| ==> IsVariableName(ri[k].0)
    ensures StackNames(ri)
  {
    ri := Reverse(inner);
    forall k | 0 <= k < |ri| ensures IsVariableName(ri[k].0) {
      assert ri[k] == inner[|inner| - 1 - k];
    }
  }

  lemma ReverseAround(outer: seq<(string, string)>, inner: seq<(string, string)>)
    ensures Reverse(outer + [(Marker, Marker)] + inner) == Reverse(inner) + [(Marker, Marker)] + Reverse(outer)
  {
    assert outer + [(Marker, Marker)] + inner == outer + ([(Marker, Marker)] + inner);
    ReverseAppend(outer, [(Marker, Marker)] + inner);
    ReverseAppend([(Marker, Marker)], inner);
    assert Reverse([(Marker, Marker)]) == [(Marker, Marker)];
  }

  /** The innermost binding is replaced first, on the trimmed text, and the rest of the stack then acts on the result. */
  lemma FormatInnermostFirst(line: string, vars: seq<(string, string)>, x: string, v: string)
    requires StackNames(vars) && IsVariableName(x)
    ensures StackNames(vars + [(x, v)])
    ensures Format(line, vars + [(x, v)]) == Substitute(ReplaceAll(Trim(line), x, v), Reverse(vars))
  {
    MarkerIsNoVariable(x);
    ReverseAppend(vars, [(x, v)]);
    StackNamesReverse(vars);
    var r := Reverse(vars + [(x, v)]);
    assert r == [(x, v)] + Reverse(vars);
    assert r[1..] == Reverse(vars);
  }

  /** Formatting an already trimmed line gives the same text: trimming is idempotent. */
  lemma FormatTrimmed(line: string, vars: seq<(string, string)>)
    requires StackNames(vars)
    ensures Format(Trim(line), vars) == Format(line, vars)
  {
    TrimIdempotent(line);
  }

  /** A line without '$' is only trimmed: every name on the stack starts with '$'. */
  lemma FormatWithoutDollar(line: string, vars: seq<(string, string)>)
    requires StackNames(vars)
    requires '$' !in line
    ensures Format(line, vars) == Trim(line)
  {
    var a, b := TrimSlice(line);
    var t := Trim(line);
    forall i | 0 <= i < |t| ensures t[i] != '$' {
      assert t[i] == line[a + i];
    }
    StackNamesReverse(vars);
    SubstituteAbsent(t, Reverse(vars));
  }

  lemma {:induction false} SubstituteAbsent(s: string, frame: seq<(string, string)>)
    requires StackNames(frame)
    requires forall i :: 0 <= i < |s| ==> s[i] != '$'
    ensures Substitute(s, frame) == s
  {
    if frame != [] && frame[0].0 != Marker {
      var x := frame[0].0;
      assert x[0] == '$';
      forall k | 0 <= k ensures !OccursAt(s, x, k) {
        if k + |x| <= |s| {
          assert s[k..k + |x|][0] == s[k];
        }
      }
      ReplaceAllAbsent(s, x, frame[0].1);
      SubstituteAbsent(s, frame[1..]);
    }
  }
}
