/**
 * What the interpreter reads from one line once it is formatted: the first
 * token's classification (`symHandler`), the scope rules (`initialChecksHandler`),
 * and the arguments of each command read from the rest of the line (qubits,
 * controls, an angle, the qubit count of `init`, the header of `def` and of
 * `for`, the end of `endef`/`endfor`), together with the gates the built-in
 * commands produce. The rest of the line is the text the line's stream has not
 * consumed yet. A failed check becomes `Failure(Assert(message, line))`.
 */
module Commands {
  import opened Text
  import opened Tokens
  import opened Expression
  import opened Complex
  import opened Bits
  import opened Gates
  import opened Symbols

  // ---------------------------------------------------------------- classification

  /**
   * `symHandler`: the first word classifies the line. An empty line or a word
   * starting with "//" is skipped; any other word must be in the symbol table.
   * The result carries the symbol, the word and the rest of the line.
   */
  function Classify(symbols: map<string, Symbol>, text: string, line: int): (r: Outcome<(Symbol, string, string)>)
    ensures r.Failure? <==> ExtractWord(text).Got? && !StartsWith(ExtractWord(text).value, "//") && ExtractWord(text).value !in symbols
    ensures r.Failure? ==> r.error == Assert("Symbol not found - '" + ExtractWord(text).value + "'", line)
    ensures r.Success? && !r.value.0.Skip? ==> r.value.1 in symbols && symbols[r.value.1] == r.value.0
    ensures r.Success? ==> |r.value.2| <= |text|
  {
    match ExtractWord(text)
    case Failed => Success((Skip, "", ""))
    case Got(w, rest) =>
      if StartsWith(w, "//") then Success((Skip, w, rest))
      else if w !in symbols then Failure(Assert("Symbol not found - '" + w + "'", line))
      else Success((symbols[w], w, rest))
  }

  /** A line of blanks and a line whose first word starts with "//" are skipped, whatever the table holds. */
  lemma BlankAndCommentSkipped(symbols: map<string, Symbol>, pad: string, comment: string, line: int)
    requires forall i :: 0 <= i < |pad| ==> IsBlank(pad[i])
    requires NoBlank(comment)
    ensures Classify(symbols, pad, line) == Success((Skip, "", ""))
    ensures Classify(symbols, pad + "//" + comment, line).Success?
    ensures Classify(symbols, pad + "//" + comment, line).value.0 == Skip
  {
    var w := "//" + comment;
    assert NoBlank(w) by {
      forall i | 0 <= i < |w| ensures !IsBlank(w[i]) {
        if i >= 2 { assert w[i] == comment[i - 2]; }
      }
    }
    ExtractWordRoundTrip(pad, w, "");
    assert pad + "//" + comment == pad + w + "";
    assert StartsWith(w, "//");
  }

  /**
   * `initialChecksHandler`: the scope rules. The result is the symbol the
   * command stage acts on: the line's own symbol, or `Skip` for a gate, macro
   * call, `for` or `endfor` line met while a definition is being recorded.
   */
  function ScopeCheck(s: Symbol, inDef: bool, inLoop: bool, isInitialised: bool, line: int): (r: Outcome<Symbol>)
    // init: not inside a definition, not inside a loop, not twice
    ensures s.Init? ==> (r.Success? <==> !inDef && !inLoop && !isInitialised)
    // def: not inside a definition or a loop
    ensures s.Def? ==> (r.Success? <==> !inDef && !inLoop)
    // endef: only with a definition open and no loop open
    ensures s.EndDef? ==> (r.Success? <==> inDef && !inLoop)
    // gate lines, macro calls, for and endfor are no-ops inside a definition
    ensures (InGateRange(s) || s.For? || s.EndFor?) && inDef ==> r == Success(Skip)
    // outside a definition they need an initialised circuit, and endfor an open loop
    ensures (InGateRange(s) || s.For? || s.EndFor?) && !inDef ==>
      (r.Success? <==> isInitialised && (s.EndFor? ==> inLoop))
    ensures r.Success? ==> r.value == s || r.value == Skip
    ensures s.Skip? ==> r == Success(Skip)
  {
    if InGateRange(s) then
      if inDef then Success(Skip)
      else if !isInitialised then Failure(Assert("Circuit must be initialised", line))
      else Success(s)
    else
      match s
      case Init =>
        if inDef then Failure(Assert("init cannot be declared in definition", line))
        else if inLoop then Failure(Assert("init cannot be declared in loop", line))
        else if isInitialised then Failure(Assert("Circuit already initialised", line))
        else Success(s)
      case Def =>
        if inDef then Failure(Assert("def cannot be declared in definition", line))
        else if inLoop then Failure(Assert("def cannot be declared in loop", line))
        else Success(s)
      case EndDef =>
        if inLoop then Failure(Assert("endef cannot be declared in loop", line))
        else if !inDef then Failure(Assert("No function defined", line))
        else Success(s)
      case For =>
        if inDef then Success(Skip)
        else if !isInitialised then Failure(Assert("Circuit must be initialised", line))
        else Success(s)
      case EndFor =>
        if inDef then Success(Skip)
        else if !isInitialised then Failure(Assert("Circuit must be initialised", line))
        else if !inLoop then Failure(Assert("No loop defined", line))
        else Success(s)
      case _ =>
        // every symbol outside the gate range is a keyword or Skip
        Success(Skip)
  }

  // ---------------------------------------------------------------- evaluated arguments

  /** How a failure of `eval` surfaces. */
  function EvalFailure(e: EvalError, line: int): Error
  {
    match e
    case UndefinedVariable => Assert("Undefined variable", line)
    case NoConversion => Abort("std::stod throws std::invalid_argument")
    case Unbalanced => Abort("the parenthesis scan reads past the end of the text")
    case DivisionByZero => Abort("division by zero")
  }

  /** `eval(word, line)`. */
  function EvalAt(word: string, line: int): (r: Outcome<real>)
    ensures '$' in word <==> r == Failure(Assert("Undefined variable", line))
  {
    match EvalText(word)
    case Ok(v) => Success(v)
    case Err(e) => Failure(EvalFailure(e, line))
  }

  /** `trunc(result) == result`. */
  predicate IsWhole(v: real)
  {
    v.Floor as real == v
  }

  /**
   * `parseQubit`: the next word, evaluated, must be a whole number in 1..nq. The
   * result is the qubit and the rest of the line.
   */
  function ReadQubit(rest: string, nq: nat, line: int): (r: Outcome<(int, string)>)
    ensures r.Success? ==> ValidQubit(r.value.0, nq) && |r.value.1| < |rest|
  {
    match ExtractWord(rest)
    case Failed => Failure(Assert("Requires active qubit", line))
    case Got(w, after) =>
      match EvalAt(w, line)
      case Failure(e) => Failure(e)
      case Success(v) =>
        if !IsWhole(v) then Failure(Assert("Active qubit number must be integer", line))
        else if !(0 < v.Floor <= nq) then Failure(Assert("Active qubit number must be between 1 and " + IntToString(nq), line))
        else Success((v.Floor, after))
  }

  /** Every name in the list differs from every other. */
  predicate Distinct(cs: seq<int>)
  {
    forall i, j :: 0 <= i < j < |cs| ==> cs[i] != cs[j]
  }

  /**
   * The loop of `parseControlQubits` after the "|": every remaining word must
   * evaluate to a whole number in 1..nq not read before; at least one is needed.
   */
  function ReadControlsFrom(rest: string, nq: nat, line: int, acc: seq<int>): (r: Outcome<seq<int>>)
    requires ValidControls(acc, nq) && Distinct(acc)
    ensures r.Success? ==> |r.value| > 0 && ValidControls(r.value, nq) && Distinct(r.value)
    decreases |rest|
  {
    match ExtractWord(rest)
    case Failed =>
      if |acc| > 0 then Success(acc) else Failure(Assert("Requires control qubit(s)", line))
    case Got(w, after) =>
      match ReadControl(w, nq, line, acc)
      case Failure(e) => Failure(e)
      case Success(q) =>
        var next := acc + [q];
        ExtendControls(q, acc, nq);
        var r := ReadControlsFrom(after, nq, line, next);
        r
  }

  /** One control word: a whole number in 1..nq that is not already in the list. */
  function ReadControl(w: string, nq: nat, line: int, acc: seq<int>): (r: Outcome<int>)
    ensures r.Success? ==> 0 < r.value <= nq && r.value !in acc
  {
    match EvalAt(w, line)
    case Failure(e) => Failure(e)
    case Success(v) =>
      if !IsWhole(v) then Failure(Assert("Control qubit number must be integer", line))
      else if !(0 < v.Floor <= nq) then Failure(Assert("Control qubit numbers must be between 1 and " + IntToString(nq), line))
      else if v.Floor in acc then Failure(Assert("Repeated control qubit - " + IntToString(v.Floor), line))
      else Success(v.Floor)
  }

  /** `parseControlQubits`: a "|" token and then the control list. */
  function ReadControls(rest: string, nq: nat, line: int): (r: Outcome<seq<int>>)
    ensures r.Success? ==> |r.value| > 0 && ValidControls(r.value, nq) && Distinct(r.value)
  {
    match ExtractWord(rest)
    case Failed => Failure(Assert("delimeter needs to be |", line))
    case Got(d, after) =>
      if d != "|" then Failure(Assert("delimeter needs to be |", line))
      else ReadControlsFrom(after, nq, line, [])
  }

  /** `parseAngle`: the next word, evaluated. */
  function ReadAngle(rest: string, line: int): (r: Outcome<(real, string)>)
    ensures r.Success? ==> |r.value.1| < |rest|
    ensures ExtractWord(rest).Failed? <==> r == Failure(Assert("Requires angle to be given", line))
  {
    match ExtractWord(rest)
    case Failed => Failure(Assert("Requires angle to be given", line))
    case Got(w, after) =>
      match EvalAt(w, line)
      case Failure(e) => Failure(e)
      case Success(v) => Success((v, after))
  }

  // ---------------------------------------------------------------- gates

  /** The matrix of each `defaultGate` symbol; a controlled symbol has the matrix of its plain form. */
  function DefaultKind(s: Symbol): MatrixKind
    requires IsDefaultGate(s)
  {
    match s
    case H => Hadamard
    case CH => Hadamard
    case X => PauliX
    case CX => PauliX
    case Y => PauliY
    case CY => PauliY
    case Z => PauliZ
    case CZ => PauliZ
  }

  /** The matrix of each `defaultAngleGate` symbol at angle phi. */
  function AngleKind(s: Symbol, phi: real): MatrixKind
    requires IsAngleGate(s)
  {
    match s
    case P => PhaseShift(phi)
    case CP => PhaseShift(phi)
    case RX => RotationX(phi)
    case CRX => RotationX(phi)
    case RY => RotationY(phi)
    case CRY => RotationY(phi)
    case RZ => RotationZ(phi)
    case CRZ => RotationZ(phi)
  }

  /** `defaultGate`: an active qubit, then for the controlled forms a control list. */
  function BuildDefault(cat: Catalog, s: Symbol, rest: string, nq: nat, line: int): (r: Outcome<Gate>)
    requires IsDefaultGate(s)
    ensures r.Success? ==> WellFormed(r.value, nq) && r.value.Matrix?
    ensures r.Success? ==> r.value.entries == KindEntries(cat, DefaultKind(s))
    ensures r.Success? ==> (r.value.controls == [] <==> !IsControlled(s))
  {
    match ReadQubit(rest, nq, line)
    case Failure(e) => Failure(e)
    case Success((a, after)) =>
      if !IsControlled(s) then Success(PlainGate(cat, DefaultKind(s), a))
      else
        match ReadControls(after, nq, line)
        case Failure(e) => Failure(e)
        case Success(cs) => Success(ControlledGate(cat, DefaultKind(s), a, cs))
  }

  /** `defaultAngleGate`: an active qubit and an angle, then for the controlled forms a control list. */
  function BuildAngle(cat: Catalog, s: Symbol, rest: string, nq: nat, line: int): (r: Outcome<Gate>)
    requires IsAngleGate(s)
    ensures r.Success? ==> WellFormed(r.value, nq) && r.value.Matrix?
    ensures r.Success? ==> exists phi :: r.value.entries == KindEntries(cat, AngleKind(s, phi))
    ensures r.Success? ==> (r.value.controls == [] <==> !IsControlled(s))
  {
    match ReadQubit(rest, nq, line)
    case Failure(e) => Failure(e)
    case Success((a, after)) =>
      match ReadAngle(after, line)
      case Failure(e) => Failure(e)
      case Success((phi, after2)) =>
        if !IsControlled(s) then Success(PlainGate(cat, AngleKind(s, phi), a))
        else
          match ReadControls(after2, nq, line)
          case Failure(e) => Failure(e)
          case Success(cs) => Success(ControlledGate(cat, AngleKind(s, phi), a, cs))
  }

  /**
   * `defaultMultiQubitGate`: two qubits. `CSWAP` then reads a control list,
   * reporting its failures with the qubit count in place of the line number,
   * and builds the same uncontrolled swap as `SWAP`.
   */
  function BuildMultiQubit(s: Symbol, rest: string, nq: nat, line: int): (r: Outcome<Gate>)
    requires IsMultiQubitGate(s)
    ensures r.Success? ==> WellFormed(r.value, nq) && r.value.Swap? && r.value.controls == []
  {
    match ReadQubit(rest, nq, line)
    case Failure(e) => Failure(e)
    case Success((a, after)) =>
      match ReadQubit(after, nq, line)
      case Failure(e) => Failure(e)
      case Success((b, after2)) =>
        if s.SWAP? then Success(Swap(a, b, []))
        else
          match ReadControls(after2, nq, nq)
          case Failure(e) => Failure(e)
          case Success(_) => Success(Swap(a, b, []))
  }

  // ---------------------------------------------------------------- keyword arguments

  /**
   * `initialise`: one int n > 0 and nothing after it. The stream's int reading
   * fails on values outside the int range.
   */
  function ReadInit(rest: string, line: int): (r: Outcome<int>)
    ensures r.Success? ==> r.value > 0 && InIntRange(r.value)
  {
    match ExtractInt(rest)
    case Failed => Failure(Assert("no number of qubits given", line))
    case Got(n, after) =>
      if n <= 0 then Failure(Assert("number of qubits must be greater than zero", line))
      else if ExtractWord(after).Got? then Failure(Assert("invalid syntax", line))
      else Success(n)
  }

  /** The register after `qR.resize(2^n); qR[0] = 1`: kept amplitudes, new ones zero, then 1 at index 0. */
  function InitialRegister(r: seq<Complex>, n: nat): (s: seq<Complex>)
    ensures IsRegister(s, n) && s[0] == One
    ensures forall i :: 1 <= i < |s| ==> s[i] == if i < |r| then r[i] else Zero
  {
    PowPositive(n);
    seq(Pow2(n), i requires 0 <= i < Pow2(n) => if i == 0 then One else if i < |r| then r[i] else Zero)
  }

  lemma PowPositive(n: nat)
    ensures Pow2(n) >= 1
  {
  }

  /** An all-digit word. */
  predicate AllDigits(w: string)
  {
    forall i :: 0 <= i < |w| ==> IsDigit(w[i])
  }

  /** The parameter loop of `definition`: every remaining word must start with '$'. */
  function ReadParameters(rest: string, line: int): (r: Outcome<seq<string>>)
    ensures r.Success? ==> r.value == Words(rest)
    ensures r.Success? ==> AllVariables(r.value)
    ensures r.Failure? ==> r.error == Assert("var doesnt start with $", line)
    decreases |rest|
  {
    match ExtractWord(rest)
    case Failed => Success([])
    case Got(w, after) =>
      if !IsVariableName(w) then Failure(Assert("var doesnt start with $", line))
      else
        match ReadParameters(after, line)
        case Failure(e) => Failure(e)
        case Success(ws) =>
          assert Words(rest) == [w] + Words(after);
          ConsVariables(w, ws);
          Success([w] + ws)
  }

  lemma ConsVariables(w: string, ws: seq<string>)
    requires IsVariableName(w) && AllVariables(ws)
    ensures AllVariables([w] + ws)
  {
    var r := [w] + ws;
    forall i | 0 <= i < |r| ensures IsVariableName(r[i]) {
      if i > 0 { assert r[i] == ws[i - 1]; }
    }
  }

  /**
   * `definition`: a name that is not in the symbol table and not all digits,
   * then parameters that each start with '$'.
   */
  function ReadDefinition(rest: string, symbols: map<string, Symbol>, line: int): (r: Outcome<(string, seq<string>)>)
    ensures r.Success? ==> |r.value.0| > 0 && r.value.0 !in symbols && !AllDigits(r.value.0)
    ensures r.Success? ==> AllVariables(r.value.1)
  {
    match ExtractWord(rest)
    case Failed => Failure(Assert("empty def name", line))
    case Got(name, after) =>
      if name in symbols then Failure(Assert("Name already defined - '" + name + "'", line))
      else if AllDigits(name) then Failure(Assert("Invalid name, name can't be a number - '" + name + "'", line))
      else
        match ReadParameters(after, line)
        case Failure(e) => Failure(e)
        case Success(ps) => Success((name, ps))
  }

  /** `endDefinition` and `endForLoop`: one extra word is read and ignored; a second one is an error. */
  function ReadEnd(rest: string, line: int): (r: Outcome<()>)
    ensures r.Success? <==> |Words(rest)| <= 1
    ensures r.Failure? ==> r.error == Assert("invalid syntax", line)
  {
    match ExtractWord(rest)
    case Failed => Success(())
    case Got(_, after) =>
      if ExtractWord(after).Got? then Failure(Assert("invalid syntax", line)) else Success(())
  }

  /** `forLoop`'s header: a '$' variable, an int start, the character ':' and an int end. */
  function ReadLoopHeader(rest: string, line: int): (r: Outcome<(string, int, int)>)
    ensures r.Success? ==> IsVariableName(r.value.0)
  {
    match ExtractWord(rest)
    case Failed => Failure(Assert("No loop variable given", line))
    case Got(v, after) =>
      if !IsVariableName(v) then Failure(Assert("var doesnt start with $", line))
      else
        match ExtractInt(after)
        case Failed => Failure(Assert("Integer loop start must be given", line))
        case Got(a, after2) =>
          match ExtractChar(after2)
          case Failed => Failure(Assert("Start and End must be separated by ':'", line))
          case Got(c, after3) =>
            if c != ':' then Failure(Assert("Start and End must be separated by ':'", line))
            else
              match ExtractInt(after3)
              case Failed => Failure(Assert("Integer loop start must be given", line))
              case Got(b, _) => Success((v, a, b))
  }

  /** The loop counter `iota(start)` over end - start + 1 slots: the values start..end ascending. */
  function Counter(start: int, end: int): (c: seq<int>)
    requires start <= end
    ensures |c| == end - start + 1 && c[0] == start && c[|c| - 1] == end
    ensures forall i :: 0 <= i < |c| ==> c[i] == start + i
    ensures forall i, j :: 0 <= i < j < |c| ==> c[i] < c[j]
  {
    seq(end - start + 1, i => start + i)
  }

  // ---------------------------------------------------------------- the reading methods

  /** `parseQubit`: reads a word, evaluates it and checks the result, as `ReadQubit` states. */
  method ParseQubit(rest: string, nq: nat, line: int) returns (r: Outcome<(int, string)>)
    ensures r == ReadQubit(rest, nq, line)
  {
    var word := ExtractWord(rest);
    if word.Failed? {
      return Failure(Assert("Requires active qubit", line));
    }
    var result := Eval(word.value);
    if result.Err? {
      return Failure(EvalFailure(result.error, line));
    }
    var v := result.value;
    if v.Floor as real != v {
      return Failure(Assert("Active qubit number must be integer", line));
    }
    var q := v.Floor;
    if !(0 < q <= nq) {
      return Failure(Assert("Active qubit number must be between 1 and " + IntToString(nq), line));
    }
    return Success((q, word.rest));
  }

  /**
   * `parseControlQubits`: the "|" and then a loop over the remaining words,
   * each checked and appended in turn.
   */
  method ParseControlQubits(rest: string, nq: nat, line: int) returns (r: Outcome<seq<int>>)
    ensures r == ReadControls(rest, nq, line)
  {
    var delimiter := ExtractWord(rest);
    if delimiter.Failed? || delimiter.value != "|" {
      return Failure(Assert("delimeter needs to be |", line));
    }
    var cqs: seq<int> := [];
    var s := delimiter.rest;
    while true
      invariant ValidControls(cqs, nq) && Distinct(cqs)
      invariant ReadControls(rest, nq, line) == ReadControlsFrom(s, nq, line, cqs)
      decreases |s|
    {
      var word := ExtractWord(s);
      if word.Failed? {
        break;
      }
      var result := Eval(word.value);
      if result.Err? {
        return Failure(EvalFailure(result.error, line));
      }
      var v := result.value;
      if v.Floor as real != v {
        return Failure(Assert("Control qubit number must be integer", line));
      }
      var cq := v.Floor;
      if !(0 < cq <= nq) {
        return Failure(Assert("Control qubit numbers must be between 1 and " + IntToString(nq), line));
      }
      if cq in cqs {
        return Failure(Assert("Repeated control qubit - " + IntToString(cq), line));
      }
      ExtendControls(cq, cqs, nq);
      cqs := cqs + [cq];
      s := word.rest;
    }
    if |cqs| == 0 {
      return Failure(Assert("Requires control qubit(s)", line));
    }
    return Success(cqs);
  }

  /** `parseAngle`: reads a word and evaluates it, as `ReadAngle` states. */
  method ParseAngle(rest: string, line: int) returns (r: Outcome<(real, string)>)
    ensures r == ReadAngle(rest, line)
  {
    var word := ExtractWord(rest);
    if word.Failed? {
      return Failure(Assert("Requires angle to be given", line));
    }
    var result := Eval(word.value);
    if result.Err? {
      return Failure(EvalFailure(result.error, line));
    }
    return Success((result.value, word.rest));
  }

  /** `defaultGate`: the active qubit, then for a controlled symbol the control list; the gate `BuildDefault` states. */
  method DefaultGate(cat: Catalog, s: Symbol, rest: string, nq: nat, line: int) returns (r: Outcome<Gate>)
    requires IsDefaultGate(s)
    ensures r == BuildDefault(cat, s, rest, nq, line)
  {
    var aq := ParseQubit(rest, nq, line);
    if aq.Failure? {
      return Failure(aq.error);
    }
    var (a, after) := aq.value;
    if !IsControlled(s) {
      return Success(PlainGate(cat, DefaultKind(s), a));
    }
    var cqs := ParseControlQubits(after, nq, line);
    if cqs.Failure? {
      return Failure(cqs.error);
    }
    return Success(ControlledGate(cat, DefaultKind(s), a, cqs.value));
  }

  /** `defaultAngleGate`: the active qubit and the angle, then for a controlled symbol the control list. */
  method DefaultAngleGate(cat: Catalog, s: Symbol, rest: string, nq: nat, line: int) returns (r: Outcome<Gate>)
    requires IsAngleGate(s)
    ensures r == BuildAngle(cat, s, rest, nq, line)
  {
    var aq := ParseQubit(rest, nq, line);
    if aq.Failure? {
      return Failure(aq.error);
    }
    var (a, after) := aq.value;
    var ph := ParseAngle(after, line);
    if ph.Failure? {
      return Failure(ph.error);
    }
    var (phi, after2) := ph.value;
    if !IsControlled(s) {
      return Success(PlainGate(cat, AngleKind(s, phi), a));
    }
    var cqs := ParseControlQubits(after2, nq, line);
    if cqs.Failure? {
      return Failure(cqs.error);
    }
    return Success(ControlledGate(cat, AngleKind(s, phi), a, cqs.value));
  }

  /** `defaultMultiQubitGate`: two qubits; `CSWAP` reads its controls with the qubit count as line number and drops them. */
  method DefaultMultiQubitGate(s: Symbol, rest: string, nq: nat, line: int) returns (r: Outcome<Gate>)
    requires IsMultiQubitGate(s)
    ensures r == BuildMultiQubit(s, rest, nq, line)
  {
    var aq := ParseQubit(rest, nq, line);
    if aq.Failure? {
      return Failure(aq.error);
    }
    var (a, after) := aq.value;
    var q2 := ParseQubit(after, nq, line);
    if q2.Failure? {
      return Failure(q2.error);
    }
    var (b, after2) := q2.value;
    if s.SWAP? {
      return Success(Swap(a, b, []));
    }
    var cqs := ParseControlQubits(after2, nq, nq);
    if cqs.Failure? {
      return Failure(cqs.error);
    }
    return Success(Swap(a, b, []));
  }

  // ---------------------------------------------------------------- round trips

  /** The text of a control list, each number after a space. */
  function ControlText(cs: seq<int>): (t: string)
    ensures |t| > 0 ==> IsBlank(t[0])
  {
    if cs == [] then "" else " " + IntToString(cs[0]) + ControlText(cs[1..])
  }

  /** After a blank, a word is read whole when a blank or the end of the line follows it. */
  lemma WordAfterBlank(w: string, after: string)
    requires |w| > 0 && NoBlank(w)
    requires |after| > 0 ==> IsBlank(after[0])
    ensures ExtractWord(" " + w + after) == Got(w, after)
  {
    assert IsBlank(' ');
    ExtractWordRoundTrip(" ", w, after);
  }

  /** An int written by `to_string` is read as one word, which evaluates to the int itself. */
  lemma IntegerAfterBlank(k: int, after: string, line: int)
    requires |after| > 0 ==> IsBlank(after[0])
    ensures ExtractWord(" " + IntToString(k) + after) == Got(IntToString(k), after)
    ensures EvalAt(IntToString(k), line) == Success(k as real)
  {
    IntegerWord(k);
    WordAfterBlank(IntToString(k), after);
    IntegerText(k);
  }

  /** One qubit word, once read and evaluated to a whole number q, is accepted exactly when q is in 1..nq. */
  lemma QubitStep(rest: string, w: string, after: string, q: int, nq: nat, line: int)
    requires ExtractWord(rest) == Got(w, after) && EvalAt(w, line) == Success(q as real)
    ensures ValidQubit(q, nq) ==> ReadQubit(rest, nq, line) == Success((q, after))
    ensures !ValidQubit(q, nq) ==>
      ReadQubit(rest, nq, line) == Failure(Assert("Active qubit number must be between 1 and " + IntToString(nq), line))
  {
    assert (q as real).Floor == q;
  }

  /**
   * An integer written by `to_string` is accepted as the active qubit exactly
   * when it lies in 1..nq; otherwise the range message names nq.
   */
  lemma QubitText(q: int, nq: nat, after: string, line: int)
    requires |after| > 0 ==> IsBlank(after[0])
    ensures ValidQubit(q, nq) ==> ReadQubit(" " + IntToString(q) + after, nq, line) == Success((q, after))
    ensures !ValidQubit(q, nq) ==>
      ReadQubit(" " + IntToString(q) + after, nq, line) == Failure(Assert("Active qubit number must be between 1 and " + IntToString(nq), line))
  {
    IntegerAfterBlank(q, after, line);
    QubitStep(" " + IntToString(q) + after, IntToString(q), after, q, nq, line);
  }

  /** A variable left unsubstituted reaches `eval`, which reports it. */
  lemma UnboundVariableReported(w: string, after: string, nq: nat, line: int)
    requires |w| > 0 && NoBlank(w) && '$' in w
    requires |after| > 0 ==> IsBlank(after[0])
    ensures ReadQubit(" " + w + after, nq, line) == Failure(Assert("Undefined variable", line))
  {
    WordAfterBlank(w, after);
  }

  /** One control word, read and evaluated to a new qubit c in range, extends the list by c. */
  lemma ControlStep(rest: string, w: string, after: string, c: int, acc: seq<int>, nq: nat, line: int)
    requires ValidControls(acc, nq) && Distinct(acc)
    requires ExtractWord(rest) == Got(w, after) && EvalAt(w, line) == Success(c as real)
    requires ValidQubit(c, nq) && c !in acc
    ensures ValidControls(acc + [c], nq) && Distinct(acc + [c])
    ensures ReadControlsFrom(rest, nq, line, acc) == ReadControlsFrom(after, nq, line, acc + [c])
  {
    ExtendControls(c, acc, nq);
    var v := c as real;
    assert v.Floor == c && IsWhole(v);
    assert 0 < v.Floor <= nq && v.Floor !in acc;
  }

  lemma ExtendControls(c: int, acc: seq<int>, nq: nat)
    requires ValidControls(acc, nq) && Distinct(acc)
    requires ValidQubit(c, nq) && c !in acc
    ensures ValidControls(acc + [c], nq) && Distinct(acc + [c])
  {
    var next := acc + [c];
    forall i, j | 0 <= i < j < |next| ensures next[i] != next[j] {
      if j == |acc| {
        assert next[i] == acc[i];
      } else {
        assert next[i] == acc[i] && next[j] == acc[j];
      }
    }
  }

  /** Each control after the "|" is read in order onto the list already read. */
  lemma {:induction false} ControlsFromText(cs: seq<int>, acc: seq<int>, nq: nat, line: int)
    requires ValidControls(acc, nq) && Distinct(acc)
    requires ValidControls(cs, nq) && Distinct(cs)
    requires forall i :: 0 <= i < |cs| ==> cs[i] !in acc
    requires |acc| + |cs| > 0
    ensures ReadControlsFrom(ControlText(cs), nq, line, acc) == Success(acc + cs)
    decreases |cs|
  {
    if cs == [] {
      assert ExtractWord("") == Failed;
      assert acc + cs == acc;
    } else {
      var c := cs[0];
      var tail := cs[1..];
      assert ControlText(cs) == " " + IntToString(c) + ControlText(tail);
      IntegerAfterBlank(c, ControlText(tail), line);
      assert ValidQubit(cs[0], nq) && cs[0] !in acc;
      ControlStep(ControlText(cs), IntToString(c), ControlText(tail), c, acc, nq, line);
      TailControls(cs, acc, nq);
      ControlsFromText(tail, acc + [c], nq, line);
      ConsSplit(acc, cs);
    }
  }

  lemma TailControls(cs: seq<int>, acc: seq<int>, nq: nat)
    requires |cs| > 0 && ValidControls(cs, nq) && Distinct(cs)
    requires forall i :: 0 <= i < |cs| ==> cs[i] !in acc
    ensures ValidControls(cs[1..], nq) && Distinct(cs[1..])
    ensures forall i :: 0 <= i < |cs[1..]| ==> cs[1..][i] !in acc + [cs[0]]
  {
    var tail := cs[1..];
    forall i | 0 <= i < |tail| ensures ValidQubit(tail[i], nq) && tail[i] !in acc + [cs[0]] {
      assert tail[i] == cs[i + 1];
      assert cs[0] != cs[i + 1];
    }
    forall i, j | 0 <= i < j < |tail| ensures tail[i] != tail[j] {
      assert tail[i] == cs[i + 1] && tail[j] == cs[j + 1];
    }
  }

  lemma ConsSplit(acc: seq<int>, cs: seq<int>)
    requires |cs| > 0
    ensures acc + [cs[0]] + cs[1..] == acc + cs
  {
  }

  /** The "|" is read as a word of its own. */
  lemma BarWord(t: string)
    requires |t| > 0 ==> IsBlank(t[0])
    ensures ExtractWord(" |" + t) == Got("|", t)
  {
    WordAfterBlank("|", t);
    assert " |" + t == " " + "|" + t;
  }

  /** After the "|", the control list is read from the rest of the line. */
  lemma ControlsAfterBar(t: string, nq: nat, line: int)
    requires |t| > 0 ==> IsBlank(t[0])
    ensures ReadControls(" |" + t, nq, line) == ReadControlsFrom(t, nq, line, [])
  {
    BarWord(t);
  }

  /** A "|" followed by a non-empty list of distinct qubits in 1..nq reads back as that list. */
  lemma ControlsText(cs: seq<int>, nq: nat, line: int)
    requires |cs| > 0 && ValidControls(cs, nq) && Distinct(cs)
    ensures ReadControls(" |" + ControlText(cs), nq, line) == Success(cs)
  {
    ControlsAfterBar(ControlText(cs), nq, line);
    ControlsFromText(cs, [], nq, line);
    assert [] + cs == cs;
  }

  /** A control read twice is rejected, naming the repeated qubit. */
  lemma RepeatedControlRejected(c: int, acc: seq<int>, after: string, nq: nat, line: int)
    requires ValidControls(acc, nq) && Distinct(acc) && c in acc
    requires |after| > 0 ==> IsBlank(after[0])
    ensures ReadControlsFrom(" " + IntToString(c) + after, nq, line, acc) == Failure(Assert("Repeated control qubit - " + IntToString(c), line))
  {
    var i :| 0 <= i < |acc| && acc[i] == c;
    assert ValidQubit(acc[i], nq);
    IntegerAfterBlank(c, after, line);
    assert (c as real).Floor == c;
  }

  /** A "|" with nothing after it is an empty control list. */
  lemma NoControlsRejected(nq: nat, line: int)
    ensures ReadControls(" |", nq, line) == Failure(Assert("Requires control qubit(s)", line))
  {
    ControlsAfterBar("", nq, line);
    assert " |" + "" == " |";
    assert ExtractWord("") == Failed;
  }

  /** A plain gate line with a valid qubit builds the plain gate of its symbol on that qubit. */
  lemma PlainGateText(cat: Catalog, s: Symbol, q: int, nq: nat, line: int)
    requires IsDefaultGate(s) && !IsControlled(s) && ValidQubit(q, nq)
    ensures BuildDefault(cat, s, " " + IntToString(q), nq, line) == Success(PlainGate(cat, DefaultKind(s), q))
  {
    QubitText(q, nq, "", line);
    assert " " + IntToString(q) + "" == " " + IntToString(q);
  }

  /**
   * A controlled gate line builds the plain gate's matrix with the controls
   * attached. The controls are not compared with the active qubit: the active
   * qubit may be among them.
   */
  lemma ControlledGateText(cat: Catalog, s: Symbol, q: int, cs: seq<int>, nq: nat, line: int)
    requires IsDefaultGate(s) && IsControlled(s) && ValidQubit(q, nq)
    requires |cs| > 0 && ValidControls(cs, nq) && Distinct(cs)
    ensures BuildDefault(cat, s, " " + IntToString(q) + (" |" + ControlText(cs)), nq, line)
      == Success(ControlledGate(cat, DefaultKind(s), q, cs))
  {
    var after := " |" + ControlText(cs);
    QubitText(q, nq, after, line);
    ControlsText(cs, nq, line);
  }

  /** An angle gate whose angle is written as an integer k builds the matrix of its symbol at angle k. */
  lemma AngleGateText(cat: Catalog, s: Symbol, q: int, k: int, nq: nat, line: int)
    requires IsAngleGate(s) && !IsControlled(s) && ValidQubit(q, nq)
    ensures BuildAngle(cat, s, " " + IntToString(q) + (" " + IntToString(k)), nq, line)
      == Success(PlainGate(cat, AngleKind(s, k as real), q))
  {
    var after := " " + IntToString(k);
    QubitText(q, nq, after, line);
    IntegerAfterBlank(k, "", line);
    assert after == " " + IntToString(k) + "";
  }

  /** `SWAP a b` builds the swap of a and b, with no controls. */
  lemma SwapText(a: int, b: int, nq: nat, line: int)
    requires ValidQubit(a, nq) && ValidQubit(b, nq)
    ensures BuildMultiQubit(SWAP, " " + IntToString(a) + (" " + IntToString(b)), nq, line) == Success(Swap(a, b, []))
  {
    var after := " " + IntToString(b);
    QubitText(a, nq, after, line);
    QubitText(b, nq, "", line);
    assert after == " " + IntToString(b) + "";
  }

  /**
   * `CSWAP a b | cs` reads and checks its controls and then builds the same
   * uncontrolled swap as `SWAP a b`.
   */
  lemma ControlledSwapDropsControls(a: int, b: int, cs: seq<int>, nq: nat, line: int)
    requires ValidQubit(a, nq) && ValidQubit(b, nq)
    requires |cs| > 0 && ValidControls(cs, nq) && Distinct(cs)
    ensures BuildMultiQubit(CSWAP, " " + IntToString(a) + (" " + IntToString(b) + (" |" + ControlText(cs))), nq, line)
      == Success(Swap(a, b, []))
  {
    var tail := " |" + ControlText(cs);
    var after := " " + IntToString(b) + tail;
    QubitText(a, nq, after, line);
    QubitText(b, nq, tail, line);
    ControlsText(cs, nq, nq);
  }

  /** A failure in the control list of `CSWAP` is reported with the qubit count as its line number. */
  lemma ControlledSwapReportsQubitCount(a: int, b: int, w: string, nq: nat, line: int)
    requires ValidQubit(a, nq) && ValidQubit(b, nq)
    requires |w| > 0 && NoBlank(w) && '$' in w
    ensures BuildMultiQubit(CSWAP, " " + IntToString(a) + (" " + IntToString(b) + (" |" + (" " + w))), nq, line)
      == Failure(Assert("Undefined variable", nq))
  {
    var tail := " |" + (" " + w);
    var after := " " + IntToString(b) + tail;
    QubitText(a, nq, after, line);
    QubitText(b, nq, tail, line);
    ControlWordUnbound(w, nq);
  }

  lemma ControlWordUnbound(w: string, nq: nat)
    requires |w| > 0 && NoBlank(w) && '$' in w
    ensures ReadControls(" |" + (" " + w), nq, nq) == Failure(Assert("Undefined variable", nq))
  {
    ControlsAfterBar(" " + w, nq, nq);
    WordAfterBlank(w, "");
    assert " " + w == " " + w + "";
    assert EvalAt(w, nq) == Failure(Assert("Undefined variable", nq));
    assert ReadControlsFrom(" " + w, nq, nq, []) == Failure(Assert("Undefined variable", nq));
  }

  /** `init n` with 0 < n in the int range sets n qubits. */
  lemma InitText(n: int, line: int)
    requires 0 < n <= IntMax
    ensures ReadInit(" " + IntToString(n), line) == Success(n)
  {
    IntAfterBlank(n, "");
    assert " " + IntToString(n) + "" == " " + IntToString(n);
    assert ExtractWord("") == Failed;
  }

  /** A word after the count is rejected. */
  lemma InitExtraWord(n: int, w: string, line: int)
    requires 0 < n <= IntMax
    requires |w| > 0 && NoBlank(w)
    ensures ReadInit(" " + IntToString(n) + (" " + w), line) == Failure(Assert("invalid syntax", line))
  {
    IntAfterBlank(n, " " + w);
    WordAfterBlank(w, "");
    assert " " + w + "" == " " + w;
  }

  /** A zero or negative count is rejected. */
  lemma InitNotPositive(n: int, line: int)
    requires IntMin <= n <= 0
    ensures ReadInit(" " + IntToString(n), line) == Failure(Assert("number of qubits must be greater than zero", line))
  {
    IntAfterBlank(n, "");
    assert " " + IntToString(n) + "" == " " + IntToString(n);
  }

  /** A list of parameter names written one after another reads back as the same list. */
  lemma {:induction false} ParametersText(ps: seq<string>, line: int)
    requires AllVariables(ps)
    requires forall i :: 0 <= i < |ps| ==> NoBlank(ps[i])
    ensures ReadParameters(Unwords(ps), line) == Success(ps)
    decreases |ps|
  {
    if ps == [] {
      assert ExtractWord("") == Failed;
    } else {
      var tail := ps[1..];
      MarkerIsNoVariable(ps[0]);
      WordAfterBlank(ps[0], Unwords(tail));
      assert Unwords(ps) == " " + ps[0] + Unwords(tail);
      assert AllVariables(tail) && forall i :: 0 <= i < |tail| ==> NoBlank(tail[i]) by {
        forall i | 0 <= i < |tail| ensures tail[i] == ps[i + 1] {
        }
      }
      ParametersText(tail, line);
      ParameterStep(Unwords(ps), ps[0], Unwords(tail), tail, line);
      ConsTail(ps);
    }
  }

  /** One '$' word, followed by parameters that read as ws, gives that word before ws. */
  lemma ParameterStep(rest: string, w: string, after: string, ws: seq<string>, line: int)
    requires ExtractWord(rest) == Got(w, after) && IsVariableName(w)
    requires ReadParameters(after, line) == Success(ws)
    ensures ReadParameters(rest, line) == Success([w] + ws)
  {
  }

  lemma ConsTail<T>(s: seq<T>)
    requires |s| > 0
    ensures [s[0]] + s[1..] == s
  {
  }

  /**
   * `def name params` with a fresh name that is not all digits and '$'
   * parameters records that name and those parameters in order; a name already
   * in the table is rejected.
   */
  lemma DefinitionText(name: string, ps: seq<string>, symbols: map<string, Symbol>, line: int)
    requires |name| > 0 && NoBlank(name)
    requires AllVariables(ps) && forall i :: 0 <= i < |ps| ==> NoBlank(ps[i])
    ensures name !in symbols && !AllDigits(name) ==>
      ReadDefinition(" " + name + Unwords(ps), symbols, line) == Success((name, ps))
    ensures name in symbols ==>
      ReadDefinition(" " + name + Unwords(ps), symbols, line) == Failure(Assert("Name already defined - '" + name + "'", line))
  {
    WordAfterBlank(name, Unwords(ps));
    ParametersText(ps, line);
  }

  /** `endef`/`endfor` accept one extra word silently and reject a second. */
  lemma EndSwallowsOneWord(w1: string, w2: string, line: int)
    requires |w1| > 0 && NoBlank(w1) && |w2| > 0 && NoBlank(w2)
    ensures ReadEnd(Unwords([w1]), line) == Success(())
    ensures ReadEnd(Unwords([w1, w2]), line) == Failure(Assert("invalid syntax", line))
  {
    WordsUnwords([w1]);
    WordsUnwords([w1, w2]);
  }

  /** `for v a:b` reads back the variable and both bounds. */
  lemma LoopHeaderText(v: string, a: int, b: int, line: int)
    requires IsVariableName(v) && NoBlank(v)
    requires InIntRange(a) && InIntRange(b)
    ensures ReadLoopHeader(" " + v + (" " + IntToString(a) + (":" + IntToString(b))), line) == Success((v, a, b))
  {
    MarkerIsNoVariable(v);
    var tb := IntToString(b);
    var after := " " + IntToString(a) + (":" + tb);
    WordAfterBlank(v, after);
    IntAfterBlank(a, ":" + tb);
    ColonThen(tb);
    IntRoundTrip(b, "");
    assert tb + "" == tb;
    LoopHeaderStep(" " + v + after, v, after, a, ":" + tb, tb, b, "", line);
  }

  lemma ColonThen(t: string)
    ensures ExtractChar(":" + t) == Got(':', t)
  {
    assert (":" + t)[1..] == t;
  }

  /** The four reads of the header, each succeeding, give the variable and both bounds. */
  lemma LoopHeaderStep(rest: string, v: string, r1: string, a: int, r2: string, r3: string, b: int, r4: string, line: int)
    requires ExtractWord(rest) == Got(v, r1) && IsVariableName(v)
    requires ExtractInt(r1) == Got(a, r2) && ExtractChar(r2) == Got(':', r3) && ExtractInt(r3) == Got(b, r4)
    ensures ReadLoopHeader(rest, line) == Success((v, a, b))
  {
  }
}
