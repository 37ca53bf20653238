/**
 * The interpreter's declarations: the first-token classification `Symbol` with
 * its ordinal (the enum order matters, because the scope rules test a range of
 * ordinals), the built-in symbol table, the records kept for a macro definition
 * and for an open `for` loop, the frame marker of the substitution stack, and
 * the shape of a failure (a message with its line number).
 */
module Symbols {
  import opened Text

  /**
   * The classification of a line's first token, in declaration order: the five
   * keywords, the gates (`Identity` has no mnemonic), a macro call (`Macro`,
   * the enum's CUSTOM) and `Skip` for blank and comment lines.
   */
  datatype Symbol =
    | Init | Def | EndDef | For | EndFor
    | Identity | H | X | Y | Z | CH | CX | CY | CZ
    | P | RX | RY | RZ | CP | CRX | CRY | CRZ
    | SWAP | CSWAP
    | Macro
    | Skip

  predicate IsKeyword(s: Symbol)
  {
    s.Init? || s.Def? || s.EndDef? || s.For? || s.EndFor?
  }

  /** The symbols `defaultGate` builds: a single active qubit, fixed entries. */
  predicate IsDefaultGate(s: Symbol)
  {
    s.H? || s.X? || s.Y? || s.Z? || s.CH? || s.CX? || s.CY? || s.CZ?
  }

  /** The symbols `defaultAngleGate` builds: an active qubit and an angle. */
  predicate IsAngleGate(s: Symbol)
  {
    s.P? || s.RX? || s.RY? || s.RZ? || s.CP? || s.CRX? || s.CRY? || s.CRZ?
  }

  /** The symbols `defaultMultiQubitGate` builds: two qubits. */
  predicate IsMultiQubitGate(s: Symbol)
  {
    s.SWAP? || s.CSWAP?
  }

  /** The controlled forms, which read a "|" and a control list after their other arguments. */
  predicate IsControlled(s: Symbol)
  {
    s.CH? || s.CX? || s.CY? || s.CZ? || s.CP? || s.CRX? || s.CRY? || s.CRZ? || s.CSWAP?
  }

  /** Every symbol that stands for a gate line: the built-in gates, `Identity` and a macro call. */
  predicate IsGateLine(s: Symbol)
  {
    s.Identity? || IsDefaultGate(s) || IsAngleGate(s) || IsMultiQubitGate(s) || s.Macro?
  }

  /**
   * The enum value. The keywords come first, then the gates up to and including
   * the macro call, and `Skip` last.
   */
  function Ord(s: Symbol): (n: nat)
    ensures n <= 25
    ensures IsKeyword(s) <==> n < 5
    ensures IsGateLine(s) <==> 5 <= n <= 24
    ensures s.Skip? <==> n == 25
  {
    match s
    case Init => 0
    case Def => 1
    case EndDef => 2
    case For => 3
    case EndFor => 4
    case Identity => 5
    case H => 6
    case X => 7
    case Y => 8
    case Z => 9
    case CH => 10
    case CX => 11
    case CY => 12
    case CZ => 13
    case P => 14
    case RX => 15
    case RY => 16
    case RZ => 17
    case CP => 18
    case CRX => 19
    case CRY => 20
    case CRZ => 21
    case SWAP => 22
    case CSWAP => 23
    case Macro => 24
    case Skip => 25
  }

  /** The test the scope rules use for "a gate line": IDENTITY <= s <= CUSTOM on the enum values. */
  predicate InGateRange(s: Symbol)
  {
    Ord(Identity) <= Ord(s) <= Ord(Macro)
  }

  /** No keyword and not `Skip` passes the gate-range test, and every gate symbol and a macro call do. */
  lemma GateRangeExact(s: Symbol)
    ensures InGateRange(s) <==> IsGateLine(s)
    ensures IsKeyword(s) ==> !InGateRange(s)
    ensures s.Skip? ==> !InGateRange(s)
  {
    assert Ord(Identity) == 5 && Ord(Macro) == 24;
  }

  /** The table the constructor fills: keyword and gate mnemonics. */
  const Builtins: map<string, Symbol> := map[
    "init" := Init, "def" := Def, "endef" := EndDef, "for" := For, "endfor" := EndFor,
    "H" := H, "CH" := CH, "X" := X, "CX" := CX, "Y" := Y, "CY" := CY, "Z" := Z, "CZ" := CZ,
    "P" := P, "CP" := CP, "RX" := RX, "CRX" := CRX, "RY" := RY, "CRY" := CRY, "RZ" := RZ, "CRZ" := CRZ,
    "SWAP" := SWAP, "CSWAP" := CSWAP]

  // ---------------------------------------------------------------- records

  /**
   * A macro definition: the line of its `def`, the line of its `endef` and its
   * parameter names in declaration order. The body is the lines strictly between
   * the two line numbers.
   */
  datatype DefinitionData = DefinitionData(defLine: int, endefLine: int, variables: seq<string>)

  /**
   * An open `for` loop: the line of the `for`, the last line of the body (the
   * end of the file until the `endfor` is met), the loop variable field (which
   * the interpreter never fills, so it stays empty) and the counter values.
   */
  datatype LoopData = LoopData(loopLine: int, endloopLine: int, variable: string, counter: seq<int>)

  /** The line numbers of a body, in order. */
  function BodyLines(d: DefinitionData): (ks: seq<int>)
    ensures |ks| == if d.endefLine - d.defLine - 1 > 0 then d.endefLine - d.defLine - 1 else 0
    ensures forall i :: 0 <= i < |ks| ==> d.defLine < ks[i] < d.endefLine && ks[i] == d.defLine + 1 + i
    decreases d.endefLine - d.defLine
  {
    if d.endefLine - d.defLine - 1 <= 0 then []
    else BodyLines(d.(endefLine := d.endefLine - 1)) + [d.endefLine - 1]
  }

  /**
   * A walk through a body, still under way and about to visit line `next`:
   * `visited[i]` is the line number handed to the line parser and `handed[i]`
   * the line number it handed back (a `for` line hands back the last line of
   * its loop). The walk starts at the line after `def` and continues after each
   * handed-back line; every visited line lies before `endef`.
   */
  ghost predicate BodyWalkSoFar(d: DefinitionData, visited: seq<int>, handed: seq<int>, next: int)
    decreases |visited|
  {
    |handed| == |visited| &&
    if |visited| == 0 then next == d.defLine + 1
    else
      var k := |visited| - 1;
      visited[k] < d.endefLine && visited[k] <= handed[k] && next == handed[k] + 1 &&
      BodyWalkSoFar(d, visited[..k], handed[..k], visited[k])
  }

  /** A complete walk: it stops at the first line number that reaches `endef`. */
  ghost predicate BodyWalk(d: DefinitionData, visited: seq<int>, handed: seq<int>)
  {
    |handed| == |visited| &&
    if |visited| == 0 then d.defLine + 1 >= d.endefLine
    else BodyWalkSoFar(d, visited, handed, handed[|handed| - 1] + 1) && handed[|handed| - 1] + 1 >= d.endefLine
  }

  /** Visiting `next`, which hands back `back`, continues the walk at `back + 1`. */
  lemma BodyWalkStep(d: DefinitionData, visited: seq<int>, handed: seq<int>, next: int, back: int)
    requires BodyWalkSoFar(d, visited, handed, next) && next < d.endefLine && next <= back
    ensures BodyWalkSoFar(d, visited + [next], handed + [back], back + 1)
  {
    assert (visited + [next])[..|visited|] == visited;
    assert (handed + [back])[..|handed|] == handed;
  }

  /** A walk that has reached `endef` is complete. */
  lemma BodyWalkDone(d: DefinitionData, visited: seq<int>, handed: seq<int>, next: int)
    requires BodyWalkSoFar(d, visited, handed, next) && next >= d.endefLine
    ensures BodyWalk(d, visited, handed)
  {
  }

  /** The walk written index by index. */
  ghost predicate WalkChain(d: DefinitionData, visited: seq<int>, handed: seq<int>)
  {
    |handed| == |visited| &&
    (|visited| > 0 ==> visited[0] == d.defLine + 1) &&
    (forall i :: 0 <= i < |visited| ==> visited[i] < d.endefLine && visited[i] <= handed[i]) &&
    (forall i :: 0 <= i < |visited| - 1 ==> visited[i + 1] == handed[i] + 1)
  }

  lemma {:induction false} BodyWalkChain(d: DefinitionData, visited: seq<int>, handed: seq<int>, next: int)
    requires BodyWalkSoFar(d, visited, handed, next)
    ensures WalkChain(d, visited, handed)
    ensures |visited| > 0 ==> next == handed[|handed| - 1] + 1
    decreases |visited|
  {
    if |visited| > 0 {
      var k := |visited| - 1;
      var vs, hs := visited[..k], handed[..k];
      BodyWalkChain(d, vs, hs, visited[k]);
      forall i | 0 <= i < |visited| ensures visited[i] < d.endefLine && visited[i] <= handed[i] {
        if i < k {
          assert vs[i] == visited[i] && hs[i] == handed[i];
        }
      }
      forall i | 0 <= i < |visited| - 1 ensures visited[i + 1] == handed[i] + 1 {
        assert hs[i] == handed[i];
        if i + 1 < k {
          assert vs[i + 1] == visited[i + 1];
        }
      }
      if k > 0 {
        assert vs[0] == visited[0];
      }
    }
  }

  lemma {:induction false} BodyWalkGrows(d: DefinitionData, visited: seq<int>, handed: seq<int>, i: int, j: int)
    requires WalkChain(d, visited, handed) && 0 <= i <= j < |visited|
    ensures visited[j] >= visited[i] + (j - i)
    decreases j - i
  {
    if i < j {
      BodyWalkGrows(d, visited, handed, i, j - 1);
    }
  }

  lemma {:induction false} BodyWalkExact(d: DefinitionData, visited: seq<int>, handed: seq<int>, j: int)
    requires WalkChain(d, visited, handed) && 0 <= j < |visited|
    requires forall i :: 0 <= i < |visited| ==> handed[i] == visited[i]
    ensures visited[j] == d.defLine + 1 + j
    decreases j
  {
    if j > 0 {
      BodyWalkExact(d, visited, handed, j - 1);
    }
  }

  /**
   * A walk visits the body lines in strictly ascending order, all of them inside
   * the body, and when no line hands back a later line number it visits exactly
   * `BodyLines(d)`.
   */
  lemma BodyWalkLines(d: DefinitionData, visited: seq<int>, handed: seq<int>)
    requires BodyWalk(d, visited, handed)
    ensures forall i :: 0 <= i < |visited| ==> d.defLine < visited[i] < d.endefLine
    ensures forall i, j :: 0 <= i < j < |visited| ==> visited[i] < visited[j]
    ensures (forall i :: 0 <= i < |visited| ==> handed[i] == visited[i]) ==> visited == BodyLines(d)
  {
    if |visited| > 0 {
      BodyWalkChain(d, visited, handed, handed[|handed| - 1] + 1);
    }
    forall i, j | 0 <= i <= j < |visited| ensures visited[j] >= visited[i] + (j - i) {
      BodyWalkGrows(d, visited, handed, i, j);
    }
    if |visited| > 0 {
      assert visited[0] == d.defLine + 1;
    }
    if forall i :: 0 <= i < |visited| ==> handed[i] == visited[i] {
      forall j | 0 <= j < |visited| ensures visited[j] == d.defLine + 1 + j {
        BodyWalkExact(d, visited, handed, j);
      }
      var ks := BodyLines(d);
      assert |visited| == |ks|;
    }
  }

  /** The name that separates one macro call's frame from the enclosing frames in the substitution stack. */
  const Marker: string := "-"

  /** Parameter and loop-variable names must start with '$'. */
  predicate IsVariableName(v: string)
  {
    StartsWith(v, "$")
  }

  /** A variable name is never the frame marker, so a frame boundary cannot be mistaken for a binding. */
  lemma MarkerIsNoVariable(v: string)
    requires IsVariableName(v)
    ensures v != Marker && |v| > 0
  {
    assert v[0] == '$';
    assert Marker[0] == '-';
  }

  /** Every name of the list is a variable name. */
  predicate AllVariables(ps: seq<string>)
  {
    forall i :: 0 <= i < |ps| ==> IsVariableName(ps[i])
  }

  /** Every name on the substitution stack is a variable or the marker. */
  predicate StackNames(vars: seq<(string, string)>)
  {
    forall k :: 0 <= k < |vars| ==> vars[k].0 == Marker || IsVariableName(vars[k].0)
  }

  // ---------------------------------------------------------------- failures

  /**
   * A failure: a failed check reports its message and a line number; `Abort`
   * stands for the ways the program ends without a message of its own (an
   * exception, or behaviour the language leaves undefined) and for the model's
   * nesting bound.
   */
  datatype Error = Assert(message: string, line: int) | Abort(reason: string)

  datatype Outcome<T> = Success(value: T) | Failure(error: Error)
}
