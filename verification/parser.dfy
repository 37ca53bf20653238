/**
 * `Parser`: the line-by-line interpreter. Its fields are the macro table, the
 * loop stack, the substitution stack, the three flags, the name of the
 * definition being recorded and the symbol table; the source lines and the
 * gate catalog are fixed when it is built. A failed check ends the run with
 * `Failure(Assert(message, line))` instead of a message and `exit(1)`.
 *
 * `parseLine`, `forLoop` and `customGate` call one another; a macro may call
 * itself, in which case the source never stops. Every method on that cycle
 * takes a `fuel` bound: a `for` or a macro call at fuel 0 ends in
 * `Failure(Abort(...))`.
 */
module Parser {
  import opened Text
  import opened Tokens
  import opened Complex
  import opened Bits
  import opened Gates
  import opened Symbols
  import opened Formatting
  import opened Commands

  /**
   * The arguments `parseLine` updates through references: the line counter, the
   * gate list being filled, the qubit count and the register.
   */
  datatype Run = Run(lineNo: int, gates: seq<Gate>, nq: nat, reg: seq<Complex>)

  /** The interpreter's mutable fields at one moment. */
  datatype Snapshot = Snapshot(
    defs: map<string, DefinitionData>,
    loops: seq<LoopData>,
    vars: seq<(string, string)>,
    isInitialised: bool,
    inDef: bool,
    inLoop: bool,
    currentDefName: string,
    symbols: map<string, Symbol>)

  // ---------------------------------------------------------------- invariants

  /** No entry of a table of built-ins is a macro call, `Identity` or `Skip`. */
  predicate PlainSymbols(table: map<string, Symbol>)
  {
    forall n :: n in table ==> table[n] != Macro && table[n] != Identity && table[n] != Skip
  }

  /** The table the constructor fills is such a table. */
  lemma BuiltinsPlain()
    ensures PlainSymbols(Builtins)
  {
  }

  /** Every macro name, as a macro call. */
  function MacroNames(defs: map<string, DefinitionData>): (m: map<string, Symbol>)
    ensures m.Keys == defs.Keys && forall n :: n in m ==> m[n] == Macro
  {
    map n | n in defs :: Macro
  }

  /**
   * The symbol table holds the built-in table and every macro name as `Macro`,
   * and nothing else; no macro has a built-in name.
   */
  predicate SymbolsValid(symbols: map<string, Symbol>, defs: map<string, DefinitionData>, table: map<string, Symbol>)
  {
    symbols == table + MacroNames(defs) && defs.Keys !! table.Keys && PlainSymbols(table)
  }

  /**
   * In a valid table a name is classified as a macro call exactly when it is a
   * macro, and no name is classified as `Identity` (which has no mnemonic, so
   * `IdentityGate` is never built) or as `Skip`.
   */
  lemma SymbolTableExact(symbols: map<string, Symbol>, defs: map<string, DefinitionData>, table: map<string, Symbol>, n: string)
    requires SymbolsValid(symbols, defs, table) && n in symbols
    ensures symbols[n] == Macro <==> n in defs
    ensures symbols[n] != Identity && symbols[n] != Skip
  {
  }

  /** Each of the first |before| - 1 frames is kept, and the last one keeps all but its end line. */
  predicate FramesKept(before: seq<LoopData>, after: seq<LoopData>)
  {
    |after| == |before| &&
    (|before| > 0 ==>
      after[..|before| - 1] == before[..|before| - 1] &&
      after[|before| - 1] == before[|before| - 1].(endloopLine := after[|before| - 1].endloopLine))
  }

  /**
   * The macros a step leaves: every macro but the one being recorded keeps its
   * record and is not reopened, no name is dropped, and the initialised flag
   * stays set once set.
   */
  predicate DefsKept(s0: Snapshot, s1: Snapshot)
  {
    (forall n :: n in s0.defs && !(s0.inDef && n == s0.currentDefName) ==>
      n in s1.defs && s1.defs[n] == s0.defs[n] && !(s1.inDef && n == s1.currentDefName)) &&
    s0.defs.Keys <= s1.defs.Keys &&
    (s0.isInitialised ==> s1.isInitialised)
  }

  lemma DefsKeptUnchanged(s0: Snapshot, s1: Snapshot)
    requires s1.defs == s0.defs && s1.inDef == s0.inDef && s1.currentDefName == s0.currentDefName
    requires s1.isInitialised == s0.isInitialised
    ensures DefsKept(s0, s1)
  {
  }

  lemma DefsKeptTransitive(s0: Snapshot, s1: Snapshot, s2: Snapshot)
    requires DefsKept(s0, s1) && DefsKept(s1, s2)
    ensures DefsKept(s0, s2)
  {
  }

  lemma FramesKeptTransitive(l0: seq<LoopData>, l1: seq<LoopData>, l2: seq<LoopData>)
    requires FramesKept(l0, l1) && FramesKept(l1, l2)
    ensures FramesKept(l0, l2)
  {
    if |l0| > 0 {
      var k := |l0| - 1;
      assert l2[..k] == l1[..k] == l0[..k];
    }
  }

  /**
   * What one line leaves of the state it found: the substitution stack, the loop
   * frames (but for the innermost end line) and the macros as `DefsKept` says.
   */
  predicate Kept(s0: Snapshot, s1: Snapshot)
  {
    s1.vars == s0.vars && FramesKept(s0.loops, s1.loops) && DefsKept(s0, s1)
  }

  lemma KeptTransitive(s0: Snapshot, s1: Snapshot, s2: Snapshot)
    requires Kept(s0, s1) && Kept(s1, s2)
    ensures Kept(s0, s2)
  {
    FramesKeptTransitive(s0.loops, s1.loops, s2.loops);
  }

  /** g1 is g0 followed by gates well formed for nq qubits. */
  predicate Extends(g0: seq<Gate>, g1: seq<Gate>, nq: nat)
  {
    |g0| <= |g1| && g1[..|g0|] == g0 && AllWellFormed(g1[|g0|..], nq)
  }

  lemma ExtendsTransitive(g0: seq<Gate>, g1: seq<Gate>, g2: seq<Gate>, nq: nat)
    requires Extends(g0, g1, nq) && Extends(g1, g2, nq)
    ensures Extends(g0, g2, nq)
  {
    assert g2[..|g0|] == g2[..|g1|][..|g0|];
    forall i | 0 <= i < |g2| - |g0| ensures WellFormed(g2[|g0|..][i], nq) {
      if |g0| + i < |g1| {
        assert g2[|g0|..][i] == g1[|g0|..][i];
      } else {
        assert g2[|g0|..][i] == g2[|g1|..][|g0| + i - |g1|];
      }
    }
  }

  lemma ExtendsByOne(g0: seq<Gate>, g: Gate, nq: nat)
    requires WellFormed(g, nq)
    ensures Extends(g0, g0 + [g], nq)
  {
    assert (g0 + [g])[|g0|..] == [g];
  }

  /** A built gate appended to an initialised run. */
  lemma GrewByGate(r0: Run, g: Outcome<Gate>, init: bool)
    requires init ==> IsRegister(r0.reg, r0.nq)
    requires g.Success? ==> WellFormed(g.value, r0.nq)
    ensures var r := Appended(g, r0.lineNo, r0.gates, r0.nq, r0.reg);
      r.Success? ==> Grew(r0, init, r.value, init) && r.value.lineNo == r0.lineNo
  {
    if g.Success? {
      ExtendsByOne(r0.gates, g.value, r0.nq);
    }
  }

  /** The gate list kept, with the qubit count and register kept or, once initialised, the new ones. */
  lemma GrewUnchanged(r0: Run, i0: bool, r1: Run, i1: bool)
    requires r1.gates == r0.gates
    requires i0 ==> r1.nq == r0.nq && r1.reg == r0.reg
    requires i1 ==> IsRegister(r1.reg, r1.nq)
    ensures Grew(r0, i0, r1, i1)
  {
    ExtendsItself(r0.gates, r1.nq);
  }

  /** A loop or a macro call on an initialised run. */
  lemma GrewByCall(r0: Run, r1: Run)
    requires IsRegister(r0.reg, r0.nq)
    requires r1.nq == r0.nq && r1.reg == r0.reg && Extends(r0.gates, r1.gates, r0.nq)
    ensures Grew(r0, true, r1, true)
  {
  }

  /** A loop restores the frames and the stack it found. */
  lemma KeptByLoop(s0: Snapshot, s1: Snapshot)
    requires s1.loops == s0.loops && s1.vars == s0.vars && DefsKept(s0, s1)
    ensures Kept(s0, s1)
  {
    KeptItself(s0);
  }

  /** Opening a loop frame and binding its variable keeps the state consistent. */
  lemma PushFrame(s: Snapshot, size: int, table: map<string, Symbol>, frame: LoopData, v: string, value: string)
    requires Consistent(s, size, table) && 0 <= frame.loopLine && frame.endloopLine <= size && IsVariableName(v)
    ensures Consistent(s.(loops := s.loops + [frame], vars := s.vars + [(v, value)], inLoop := true), size, table)
  {
  }

  /** Binding a new value to a variable already on the stack keeps the state consistent. */
  lemma RebindVariable(s: Snapshot, size: int, table: map<string, Symbol>, k: int, v: string, value: string)
    requires Consistent(s, size, table) && 0 <= k < |s.vars| && IsVariableName(v)
    ensures Consistent(s.(vars := s.vars[k := (v, value)]), size, table)
  {
  }

  /** Pushing bindings whose names are variables or the marker keeps the state consistent. */
  lemma PushVars(s: Snapshot, size: int, table: map<string, Symbol>, extra: seq<(string, string)>)
    requires Consistent(s, size, table) && StackNames(extra)
    ensures Consistent(s.(vars := s.vars + extra), size, table)
  {
  }

  /** Popping bindings keeps the state consistent. */
  lemma TruncateVars(s: Snapshot, size: int, table: map<string, Symbol>, n: int)
    requires Consistent(s, size, table) && 0 <= n <= |s.vars|
    ensures Consistent(s.(vars := s.vars[..n]), size, table)
  {
  }

  /** Closing the innermost frame and unbinding the innermost variable keeps the state consistent. */
  lemma PopFrame(s: Snapshot, size: int, table: map<string, Symbol>)
    requires Consistent(s, size, table) && |s.loops| > 0 && |s.vars| > 0
    ensures Consistent(s.(loops := s.loops[..|s.loops| - 1], inLoop := |s.loops| - 1 != 0, vars := s.vars[..|s.vars| - 1]), size, table)
  {
  }

  /** Frames kept by a step keep every frame below the innermost one, and the innermost one's start and counter. */
  lemma FramesKeptPrefix(l0: seq<LoopData>, l1: seq<LoopData>)
    requires FramesKept(l0, l1) && |l0| > 0
    ensures |l1| == |l0| && l1[..|l0| - 1] == l0[..|l0| - 1]
    ensures l1[|l0| - 1].loopLine == l0[|l0| - 1].loopLine && l1[|l0| - 1].counter == l0[|l0| - 1].counter
  {
  }

  /** Each parameter paired with its argument, in declaration order. */
  function Bindings(names: seq<string>, values: seq<string>): (b: seq<(string, string)>)
    requires |names| == |values|
    ensures |b| == |names| && forall k :: 0 <= k < |b| ==> b[k] == (names[k], values[k])
  {
    if names == [] then [] else Bindings(names[..|names| - 1], values[..|values| - 1]) + [(names[|names| - 1], values[|values| - 1])]
  }

  /** A frame of bindings of variable names, behind the marker, holds only stack names. */
  lemma BindingsNames(names: seq<string>, values: seq<string>)
    requires |names| == |values| && AllVariables(names)
    ensures StackNames([(Marker, Marker)] + Bindings(names, values))
  {
  }

  /** Popping as many entries as were pushed restores the stack. */
  lemma DropFrame<T>(outer: seq<T>, frame: seq<T>)
    ensures (outer + frame)[..|outer + frame| - |frame|] == outer
  {
  }

  lemma AppendOne<T>(a: seq<T>, x: T, b: seq<T>)
    ensures a + ([x] + b) == (a + [x]) + b
  {
  }

  lemma KeptItself(s: Snapshot)
    ensures Kept(s, s)
  {
    if |s.loops| > 0 {
      assert s.loops[|s.loops| - 1] == s.loops[|s.loops| - 1].(endloopLine := s.loops[|s.loops| - 1].endloopLine);
    }
  }

  lemma ExtendsItself(g0: seq<Gate>, nq: nat)
    ensures Extends(g0, g0, nq)
  {
    assert g0[|g0|..] == [];
  }

  /**
   * What the reference arguments become: the gate list only grows, by gates
   * well formed for the final qubit count; once initialised, the qubit count and
   * the register stay as they are, and an initialised register has 2^nq
   * amplitudes.
   */
  predicate Grew(r0: Run, init0: bool, r1: Run, init1: bool)
  {
    Extends(r0.gates, r1.gates, r1.nq) &&
    (init0 ==> r1.nq == r0.nq && r1.reg == r0.reg) &&
    (init1 ==> IsRegister(r1.reg, r1.nq))
  }

  lemma GrewTransitive(r0: Run, i0: bool, r1: Run, i1: bool, r2: Run, i2: bool)
    requires Grew(r0, i0, r1, i1) && Grew(r1, i1, r2, i2) && (i0 ==> i1)
    requires !i1 ==> r1.gates == r0.gates && r2.gates == r1.gates
    ensures Grew(r0, i0, r2, i2)
  {
    if i1 {
      ExtendsTransitive(r0.gates, r1.gates, r2.gates, r2.nq);
    } else {
      ExtendsItself(r0.gates, r2.nq);
    }
  }

  /**
   * The symbol table matches the macro table; every macro's lines and every
   * loop frame's lines lie within a file of `size` lines and every parameter
   * starts with '$'; a definition being recorded is in the table; the
   * substitution stack holds only markers and variables; `inLoop` says whether
   * a frame is open.
   */
  ghost predicate Consistent(s: Snapshot, size: int, table: map<string, Symbol>)
  {
    SymbolsValid(s.symbols, s.defs, table) &&
    (forall n :: n in s.defs ==> 0 <= s.defs[n].defLine && s.defs[n].endefLine <= size && AllVariables(s.defs[n].variables)) &&
    (s.inDef ==> s.currentDefName in s.defs) &&
    (forall k :: 0 <= k < |s.loops| ==> 0 <= s.loops[k].loopLine && s.loops[k].endloopLine <= size) &&
    StackNames(s.vars) &&
    (s.inLoop <==> |s.loops| > 0)
  }

  /** `def`: a fresh name recorded at line `lineNo` keeps the state consistent and every other macro as it was. */
  lemma DefineKeeps(s: Snapshot, size: int, table: map<string, Symbol>, name: string, lineNo: int, ps: seq<string>)
    requires Consistent(s, size, table) && !s.inDef && name !in s.symbols && 0 <= lineNo <= size && AllVariables(ps)
    ensures var t := s.(defs := s.defs[name := DefinitionData(lineNo, lineNo, ps)],
                        symbols := s.symbols[name := Macro], currentDefName := name, inDef := true);
      Consistent(t, size, table) && Kept(s, t)
  {
    DefinedValid(s.symbols, s.defs, table, name, DefinitionData(lineNo, lineNo, ps));
    var t := s.(defs := s.defs[name := DefinitionData(lineNo, lineNo, ps)],
                symbols := s.symbols[name := Macro], currentDefName := name, inDef := true);
    assert FramesKept(s.loops, t.loops) by {
      if |s.loops| > 0 {
        assert s.loops[|s.loops| - 1] == s.loops[|s.loops| - 1].(endloopLine := s.loops[|s.loops| - 1].endloopLine);
      }
    }
  }

  /** `endef`: closing the open definition at line `lineNo` keeps the state consistent and every other macro as it was. */
  lemma EndDefineKeeps(s: Snapshot, size: int, table: map<string, Symbol>, lineNo: int, d: map<string, DefinitionData>)
    requires Consistent(s, size, table) && s.inDef && 0 <= lineNo <= size
    requires s.currentDefName in s.defs
    requires d == s.defs[s.currentDefName := s.defs[s.currentDefName].(endefLine := lineNo)]
    ensures var t := s.(defs := d, inDef := false);
      Consistent(t, size, table) && Kept(s, t)
  {
    var n := s.currentDefName;
    var t := s.(defs := d, inDef := false);
    assert t.defs.Keys == s.defs.Keys;
    MacroNamesSameKeys(s.defs, t.defs);
    assert SymbolsValid(t.symbols, t.defs, table);
    KeptItself(s);
  }

  lemma MacroNamesSameKeys(d1: map<string, DefinitionData>, d2: map<string, DefinitionData>)
    requires d1.Keys == d2.Keys
    ensures MacroNames(d1) == MacroNames(d2)
  {
  }

  /** `endfor`: setting the innermost frame's end line keeps the state consistent. */
  lemma EndLoopKeeps(s: Snapshot, size: int, table: map<string, Symbol>, lineNo: int)
    requires Consistent(s, size, table) && |s.loops| > 0 && 0 <= lineNo <= size
    ensures var last := |s.loops| - 1;
      var t := s.(loops := s.loops[last := s.loops[last].(endloopLine := lineNo)]);
      Consistent(t, size, table) && Kept(s, t)
  {
    var last := |s.loops| - 1;
    var t := s.(loops := s.loops[last := s.loops[last].(endloopLine := lineNo)]);
    assert t.loops[..last] == s.loops[..last];
  }

  /** Removing every macro name from the table and emptying the macro table leaves exactly the built-ins. */
  lemma ResetConsistent(s: Snapshot, size: int, table: map<string, Symbol>)
    requires Consistent(s, size, table) && !s.inDef
    ensures s.symbols - s.defs.Keys == table
    ensures Consistent(s.(symbols := table, defs := map[], isInitialised := false), size, table)
  {
    OverrideRemoved(table, s.defs);
    OverrideRemoved(table, map[]);
  }

  lemma OverrideRemoved(b: map<string, Symbol>, defs: map<string, DefinitionData>)
    requires defs.Keys !! b.Keys
    ensures (b + MacroNames(defs)) - defs.Keys == b
  {
    var t := (b + MacroNames(defs)) - defs.Keys;
    assert t.Keys == b.Keys;
  }

  lemma RemoveOneMore(m: map<string, Symbol>, removed: set<string>, n: string)
    ensures (m - removed) - {n} == m - (removed + {n})
  {
  }

  // ---------------------------------------------------------------- the stages of a line

  /**
   * The first three stages of `parseLine`: the line is formatted against the
   * substitution stack, its first word classified against the symbol table and
   * the scope rules applied. The result is the symbol the command stage acts on,
   * the word and the rest of the line.
   */
  function Dispatch(s: Snapshot, line: string, lineNo: int): (r: Outcome<(Symbol, string, string)>)
    requires StackNames(s.vars)
    ensures r.Success? ==> Classify(s.symbols, Format(line, s.vars), lineNo).Success?
    ensures r.Success? ==> r.value.0 == Skip || r.value.0 == Classify(s.symbols, Format(line, s.vars), lineNo).value.0
  {
    match Classify(s.symbols, Format(line, s.vars), lineNo)
    case Failure(e) => Failure(e)
    case Success((sym, w, rest)) =>
      match ScopeCheck(sym, s.inDef, s.inLoop, s.isInitialised, lineNo)
      case Failure(e) => Failure(e)
      case Success(t) => Success((t, w, rest))
  }

  /** What the scope rules guarantee the command stage about the symbol it acts on. */
  predicate Admissible(s: Snapshot, sym: Symbol, word: string)
  {
    ((IsGateLine(sym) || sym.For? || sym.EndFor?) ==> s.isInitialised && !s.inDef) &&
    (sym.EndFor? ==> |s.loops| > 0) &&
    (sym.EndDef? ==> s.inDef && !s.inLoop) &&
    (sym.Init? ==> !s.isInitialised && !s.inDef && !s.inLoop) &&
    (sym.Def? ==> !s.inDef && !s.inLoop) &&
    (sym.Macro? ==> word in s.defs)
  }

  /**
   * In a consistent state every symbol the first three stages let through is
   * admissible, and none is `Identity`: the enum value has no mnemonic, so the
   * identity gate is never built.
   */
  lemma DispatchAdmissible(s: Snapshot, size: int, table: map<string, Symbol>, line: string, lineNo: int)
    requires Consistent(s, size, table)
    ensures Dispatch(s, line, lineNo).Success? ==>
      Admissible(s, Dispatch(s, line, lineNo).value.0, Dispatch(s, line, lineNo).value.1) &&
      !Dispatch(s, line, lineNo).value.0.Identity?
  {
    var c := Classify(s.symbols, Format(line, s.vars), lineNo);
    if c.Success? {
      var (sym, w, _) := c.value;
      if !sym.Skip? {
        SymbolTableExact(s.symbols, s.defs, table, w);
      }
      ScopeAdmissible(s, sym, w, lineNo);
    }
  }

  lemma ScopeAdmissible(s: Snapshot, sym: Symbol, w: string, lineNo: int)
    requires s.inLoop <==> |s.loops| > 0
    requires !sym.Skip? ==> (sym.Macro? <==> w in s.defs) && !sym.Identity?
    ensures var c := ScopeCheck(sym, s.inDef, s.inLoop, s.isInitialised, lineNo);
      c.Success? ==> Admissible(s, c.value, w) && !c.value.Identity?
  {
    GateRangeExact(sym);
  }

  /** The symbols `commandHandler` hands to a gate builder. */
  predicate IsBuiltinGate(s: Symbol)
  {
    IsDefaultGate(s) || IsAngleGate(s) || IsMultiQubitGate(s)
  }

  /** The builder `commandHandler` picks for a built-in gate symbol, applied to the rest of the line. */
  function BuiltinGate(cat: Catalog, s: Symbol, rest: string, nq: nat, line: int): (r: Outcome<Gate>)
    requires IsBuiltinGate(s)
    ensures r.Success? ==> WellFormed(r.value, nq)
  {
    if IsDefaultGate(s) then BuildDefault(cat, s, rest, nq, line)
    else if IsAngleGate(s) then BuildAngle(cat, s, rest, nq, line)
    else BuildMultiQubit(s, rest, nq, line)
  }

  /** A built gate appended to the list, or the builder's failure. */
  function Appended(g: Outcome<Gate>, lineNo: int, gates: seq<Gate>, nq: nat, reg: seq<Complex>): (r: Outcome<Run>)
    ensures g.Failure? ==> r == Failure(g.error)
    ensures g.Success? ==> r.Success? && r.value.gates == gates + [g.value]
    ensures g.Success? ==> r.value.lineNo == lineNo && r.value.nq == nq && r.value.reg == reg
  {
    match g
    case Failure(e) => Failure(e)
    case Success(x) => Success(Run(lineNo, gates + [x], nq, reg))
  }

  /**
   * The reading half of `definition`: the macro's name, which must be new and
   * not a number, then its parameters.
   */
  method ReadDefHeader(rest: string, symbols: map<string, Symbol>, lineNo: int) returns (r: Outcome<(string, seq<string>)>)
    ensures r == ReadDefinition(rest, symbols, lineNo)
  {
    var word := ExtractWord(rest);
    if word.Failed? {
      return Failure(Assert("empty def name", lineNo));
    }
    var defName := word.value;
    DefinitionHeader(rest, symbols, lineNo);
    if defName in symbols {
      return Failure(Assert("Name already defined - '" + defName + "'", lineNo));
    }
    if AllDigits(defName) {
      return Failure(Assert("Invalid name, name can't be a number - '" + defName + "'", lineNo));
    }
    var defVars := ReadDefVars(word.rest, lineNo);
    if defVars.Failure? {
      return Failure(defVars.error);
    }
    return Success((defName, defVars.value));
  }

  /** The arguments of a macro call: `while (iss >> var)` collects every remaining word. */
  method ReadArguments(rest: string) returns (ws: seq<string>)
    ensures ws == Words(rest)
  {
    ws := [];
    var s := rest;
    var w := ExtractWord(s);
    while w.Got?
      invariant w == ExtractWord(s)
      invariant ws + Words(s) == Words(rest)
      decreases |s|
    {
      WordsStep(s);
      AppendOne(ws, w.value, Words(w.rest));
      ws := ws + [w.value];
      s := w.rest;
      w := ExtractWord(s);
    }
    WordsStep(s);
    assert ws + [] == ws;
  }

  lemma WordsStep(s: string)
    ensures ExtractWord(s).Failed? ==> Words(s) == []
    ensures ExtractWord(s).Got? ==> Words(s) == [ExtractWord(s).value] + Words(ExtractWord(s).rest)
  {
  }

  /** The entries a macro call pushes: the marker, then each parameter bound to its argument. */
  method CallFrame(names: seq<string>, values: seq<string>) returns (frame: seq<(string, string)>)
    requires |names| == |values|
    ensures frame == [(Marker, Marker)] + Bindings(names, values)
  {
    frame := [(Marker, Marker)];
    var i := 0;
    while i < |names|
      invariant 0 <= i <= |names| && |frame| == i + 1 && frame[0] == (Marker, Marker)
      invariant forall k :: 1 <= k <= i ==> frame[k] == (names[k - 1], values[k - 1])
    {
      frame := frame + [(names[i], values[i])];
      i := i + 1;
    }
    var b := Bindings(names, values);
    assert forall k :: 1 <= k < |frame| ==> frame[k] == b[k - 1];
  }

  /**
   * The interpreter: the file's lines, the gate catalogue, the macro table,
   * the open loops, the substitution stack, the state flags and the symbol table.
   */
  class Parser {
    const lines: seq<string>
    const catalog: Catalog
    /** The table of built-in mnemonics the constructor filled in. */
    const builtins: map<string, Symbol>
    var defs: map<string, DefinitionData>
    var loops: seq<LoopData>
    var vars: seq<(string, string)>
    var isInitialised: bool
    var inDef: bool
    var inLoop: bool
    var currentDefName: string
    var symbols: map<string, Symbol>

    ghost function Snap(): Snapshot
      reads this
    {
      Snapshot(defs, loops, vars, isInitialised, inDef, inLoop, currentDefName, symbols)
    }

    /** The fields satisfy `Consistent` for this file. */
    ghost predicate Valid()
      reads this
    {
      Consistent(Snap(), |lines|, builtins)
    }

    /** `Parser::Parser` fills the table with the built-ins and clears the flags; the lines are given. */
    constructor (text: seq<string>, cat: Catalog)
      ensures Valid()
      ensures lines == text && catalog == cat
      ensures builtins == Builtins && symbols == Builtins
      ensures defs == map[] && loops == [] && vars == []
      ensures !isInitialised && !inDef && !inLoop
    {
      lines := text;
      catalog := cat;
      builtins := Builtins;
      symbols := Builtins;
      BuiltinsPlain();
      assert Builtins + MacroNames(map[]) == Builtins;
      defs := map[];
      loops := [];
      vars := [];
      currentDefName := "";
      isInitialised := false;
      inDef := false;
      inLoop := false;
    }

    // ------------------------------------------------------------ one line, in stages

    /**
     * `formatLine`: trims the line, reverses the stack, replaces each binding up
     * to the first marker, and reverses the stack back.
     */
    method FormatLine(line: string) returns (text: string)
      requires StackNames(vars)
      modifies this`vars
      ensures vars == old(vars)
      ensures text == Format(line, vars)
    {
      StackNamesReverse(vars);
      var frame := Reverse(vars);
      vars := frame;
      text := Trim(line);
      var i := 0;
      while i < |frame| && frame[i].0 != Marker
        invariant 0 <= i <= |frame| && vars == frame
        invariant Substitute(Trim(line), frame) == Substitute(text, frame[i..])
      {
        SubstituteStep(text, frame, i);
        text := ReplaceVar(text, frame[i].0, frame[i].1);
        i := i + 1;
      }
      SubstituteDone(text, frame, i);
      vars := Reverse(vars);
      ReverseReverse(old(vars));
    }

    /** `symHandler`: the classification `Classify` states, against the current symbol table. */
    method SymHandler(text: string, lineNo: int) returns (r: Outcome<(Symbol, string, string)>)
      ensures r == Classify(symbols, text, lineNo)
    {
      var word := ExtractWord(text);
      if word.Failed? {
        return Success((Skip, "", ""));
      }
      var w := word.value;
      if StartsWith(w, "//") {
        return Success((Skip, w, word.rest));
      }
      if w !in symbols {
        return Failure(Assert("Symbol not found - '" + w + "'", lineNo));
      }
      return Success((symbols[w], w, word.rest));
    }

    /** `initialChecksHandler`: the scope rules `ScopeCheck` states, against the current flags. */
    method InitialChecksHandler(s: Symbol, lineNo: int) returns (r: Outcome<Symbol>)
      ensures r == ScopeCheck(s, inDef, inLoop, isInitialised, lineNo)
    {
      if Ord(Identity) <= Ord(s) <= Ord(Macro) {
        if inDef {
          return Success(Skip);
        }
        if !isInitialised {
          return Failure(Assert("Circuit must be initialised", lineNo));
        }
        return Success(s);
      }
      if s == Init {
        if inDef {
          return Failure(Assert("init cannot be declared in definition", lineNo));
        }
        if inLoop {
          return Failure(Assert("init cannot be declared in loop", lineNo));
        }
        if isInitialised {
          return Failure(Assert("Circuit already initialised", lineNo));
        }
      } else if s == Def {
        if inDef {
          return Failure(Assert("def cannot be declared in definition", lineNo));
        }
        if inLoop {
          return Failure(Assert("def cannot be declared in loop", lineNo));
        }
      } else if s == EndDef {
        if inLoop {
          return Failure(Assert("endef cannot be declared in loop", lineNo));
        }
        if !inDef {
          return Failure(Assert("No function defined", lineNo));
        }
      } else if s == For {
        if inDef {
          return Success(Skip);
        }
        if !isInitialised {
          return Failure(Assert("Circuit must be initialised", lineNo));
        }
      } else if s == EndFor {
        if inDef {
          return Success(Skip);
        }
        if !isInitialised {
          return Failure(Assert("Circuit must be initialised", lineNo));
        }
        if !inLoop {
          return Failure(Assert("No loop defined", lineNo));
        }
      } else {
        // Skip: the source's last branch is unreachable, every other symbol is in the gate range
        return Success(Skip);
      }
      return Success(s);
    }

    // ------------------------------------------------------------ keywords

    /**
     * `initialise`: reads the count as `ReadInit` states; on success sets nQ,
     * resizes the register to 2^n keeping the amplitudes it had, puts 1 at index
     * 0 and sets the initialised flag.
     */
    method Initialise(lineNo: int, rest: string, reg: seq<Complex>) returns (r: Outcome<(nat, seq<Complex>)>)
      modifies this`isInitialised
      ensures ReadInit(rest, lineNo).Failure? ==> r == Failure(ReadInit(rest, lineNo).error) && !isInitialised == !old(isInitialised)
      ensures ReadInit(rest, lineNo).Success? ==>
        r == Success((ReadInit(rest, lineNo).value, InitialRegister(reg, ReadInit(rest, lineNo).value))) && isInitialised
    {
      var n := ReadInit(rest, lineNo);
      if n.Failure? {
        return Failure(n.error);
      }
      PowPositive(n.value);
      var size := Pow2(n.value);
      var resized := seq(size, i requires 0 <= i < size => if i < |reg| then reg[i] else Zero);
      resized := resized[0 := One];
      assert forall i :: 0 <= i < size ==> resized[i] == InitialRegister(reg, n.value)[i];
      assert resized == InitialRegister(reg, n.value);
      isInitialised := true;
      return Success((n.value, resized));
    }

    /**
     * `definition`: reads the header as `ReadDefinition` states, the parameters
     * one word at a time; on success records the definition at this line with
     * its parameters, maps the name to a macro call and opens the definition.
     */
    method Definition(lineNo: int, rest: string) returns (r: Outcome<()>)
      requires Valid() && !inDef && 0 <= lineNo <= |lines|
      modifies this`defs, this`currentDefName, this`symbols, this`inDef
      ensures ReadDefinition(rest, old(symbols), lineNo).Failure? ==> r == Failure(ReadDefinition(rest, old(symbols), lineNo).error)
      ensures ReadDefinition(rest, old(symbols), lineNo).Success? ==>
        var (name, ps) := ReadDefinition(rest, old(symbols), lineNo).value;
        r == Success(()) && defs == old(defs)[name := DefinitionData(lineNo, lineNo, ps)] &&
        symbols == old(symbols)[name := Macro] && currentDefName == name && inDef
      ensures r.Success? ==> Valid() && Kept(old(Snap()), Snap())
    {
      var header := ReadDefHeader(rest, symbols, lineNo);
      if header.Failure? {
        return Failure(header.error);
      }
      var (defName, ps) := header.value;
      Record(defName, lineNo, ps);
      return Success(());
    }

    /** The state change of `definition`: the macro is recorded, its name enters the symbol table and the definition is open. */
    method Record(defName: string, lineNo: int, ps: seq<string>)
      requires Valid() && !inDef && 0 <= lineNo <= |lines| && defName !in symbols && AllVariables(ps)
      modifies this`defs, this`currentDefName, this`symbols, this`inDef
      ensures defs == old(defs)[defName := DefinitionData(lineNo, lineNo, ps)]
      ensures symbols == old(symbols)[defName := Macro] && currentDefName == defName && inDef
      ensures Valid() && Kept(old(Snap()), Snap())
    {
      ghost var s0 := Snap();
      DefineKeeps(s0, |lines|, builtins, defName, lineNo, ps);
      defs := defs[defName := DefinitionData(lineNo, lineNo, ps)];
      currentDefName := defName;
      symbols := symbols[defName := Macro];
      inDef := true;
      assert Snap() == s0.(defs := s0.defs[defName := DefinitionData(lineNo, lineNo, ps)],
                           symbols := s0.symbols[defName := Macro], currentDefName := defName, inDef := true);
    }

    /**
     * `endDefinition`: one extra word is read and ignored, a second is an error
     * (`ReadEnd`); on success the open definition's end line is this line and
     * the definition is closed.
     */
    method EndDefinition(lineNo: int, rest: string) returns (r: Outcome<()>)
      requires Valid() && inDef && 0 <= lineNo <= |lines|
      modifies this`defs, this`inDef
      ensures ReadEnd(rest, lineNo).Failure? ==> r == Failure(ReadEnd(rest, lineNo).error)
      ensures ReadEnd(rest, lineNo).Success? ==>
        r == Success(()) && !inDef &&
        defs == old(defs)[currentDefName := old(defs)[currentDefName].(endefLine := lineNo)]
      ensures r.Success? ==> Valid() && Kept(old(Snap()), Snap())
    {
      var end := ReadEnd(rest, lineNo);
      if end.Failure? {
        return Failure(end.error);
      }
      CloseDefinition(lineNo);
      return Success(());
    }

    /** The state change of `endDefinition`: the open macro's end line is this line and no definition is open. */
    method CloseDefinition(lineNo: int)
      requires Valid() && inDef && 0 <= lineNo <= |lines|
      modifies this`defs, this`inDef
      ensures !inDef && defs == old(defs)[currentDefName := old(defs)[currentDefName].(endefLine := lineNo)]
      ensures Valid() && Kept(old(Snap()), Snap())
    {
      ghost var s0 := Snap();
      var d := defs[currentDefName := defs[currentDefName].(endefLine := lineNo)];
      EndDefineKeeps(s0, |lines|, builtins, lineNo, d);
      defs, inDef := d, false;
    }

    /**
     * `endForLoop`: as `endDefinition` for the extra words; on success the
     * innermost loop's end line is this line.
     */
    method EndForLoop(lineNo: int, rest: string) returns (r: Outcome<()>)
      requires Valid() && |loops| > 0 && 0 <= lineNo <= |lines|
      modifies this`loops
      ensures ReadEnd(rest, lineNo).Failure? ==> r == Failure(ReadEnd(rest, lineNo).error)
      ensures ReadEnd(rest, lineNo).Success? ==>
        r == Success(()) &&
        loops == old(loops)[|old(loops)| - 1 := old(loops)[|old(loops)| - 1].(endloopLine := lineNo)]
      ensures r.Success? ==> Valid() && Kept(old(Snap()), Snap())
    {
      var end := ReadEnd(rest, lineNo);
      if end.Failure? {
        return Failure(end.error);
      }
      var last := |loops| - 1;
      EndLoopKeeps(Snap(), |lines|, builtins, lineNo);
      loops := loops[last := loops[last].(endloopLine := lineNo)];
      return Success(());
    }

    // ------------------------------------------------------------ the interpreter's recursion

    /**
     * `commandHandler`: builds and appends a gate, runs a keyword, expands a
     * loop or a macro call, or does nothing for `Skip`; `Identity`, which no
     * line can name, is the "Unknown command error".
     */
    method CommandHandler(lineNo: int, sym: Symbol, word: string, rest: string,
                          gates: seq<Gate>, nq: nat, reg: seq<Complex>, fuel: nat) returns (r: Outcome<Run>)
      requires Valid() && 1 <= lineNo <= |lines|
      requires isInitialised ==> IsRegister(reg, nq)
      requires Admissible(Snap(), sym, word)
      modifies this
      ensures r.Success? ==> Valid() && Kept(old(Snap()), Snap())
      ensures r.Success? ==> Grew(Run(lineNo, gates, nq, reg), old(isInitialised), r.value, isInitialised)
      ensures r.Success? ==> lineNo <= r.value.lineNo <= |lines| + 1
      ensures r.Success? && !old(isInitialised) ==> r.value.gates == gates
      ensures sym.Skip? ==> r == Success(Run(lineNo, gates, nq, reg)) && Snap() == old(Snap())
      ensures IsBuiltinGate(sym) ==>
        r == Appended(BuiltinGate(catalog, sym, rest, nq, lineNo), lineNo, gates, nq, reg) && Snap() == old(Snap())
      ensures sym.Identity? ==> r == Failure(Assert("Unknown command error", lineNo))
      ensures sym.Init? ==> match ReadInit(rest, lineNo)
        case Failure(e) => r == Failure(e)
        case Success(n) => r == Success(Run(lineNo, gates, n, InitialRegister(reg, n)))
      decreases fuel, 3
    {
      var r0 := Run(lineNo, gates, nq, reg);
      if IsBuiltinGate(sym) {
        r := GateLine(lineNo, sym, rest, gates, nq, reg, isInitialised);
        if r.Success? {
          KeptItself(Snap());
        }
      } else if sym == Macro {
        r := CustomGate(lineNo, rest, word, gates, nq, reg, fuel);
        if r.Success? {
          GrewByCall(r0, r.value);
        }
      } else if IsKeyword(sym) {
        r := KeywordCommand(lineNo, sym, rest, gates, nq, reg, fuel);
      } else if sym == Skip {
        r := Success(r0);
        GrewUnchanged(r0, isInitialised, r0, isInitialised);
        KeptItself(Snap());
      } else {
        r := Failure(Assert("Unknown command error", lineNo));
      }
    }

    /** The built-in gate lines of `commandHandler`: the gate its builder reads from the rest of the line, appended to the list. */
    method GateLine(lineNo: int, sym: Symbol, rest: string, gates: seq<Gate>, nq: nat, reg: seq<Complex>, init: bool)
      returns (r: Outcome<Run>)
      requires init ==> IsRegister(reg, nq)
      requires IsBuiltinGate(sym)
      ensures r.Success? ==> Grew(Run(lineNo, gates, nq, reg), init, r.value, init) && r.value.lineNo == lineNo
      ensures r == Appended(BuiltinGate(catalog, sym, rest, nq, lineNo), lineNo, gates, nq, reg)
    {
      var g;
      if IsDefaultGate(sym) {
        g := DefaultGate(catalog, sym, rest, nq, lineNo);
      } else if IsAngleGate(sym) {
        g := DefaultAngleGate(catalog, sym, rest, nq, lineNo);
      } else {
        g := DefaultMultiQubitGate(sym, rest, nq, lineNo);
      }
      r := Appended(g, lineNo, gates, nq, reg);
      GrewByGate(Run(lineNo, gates, nq, reg), g, init);
    }

    /** The keyword lines of `commandHandler`: `init`, `def`, `endef`, `for` and `endfor`. */
    method KeywordCommand(lineNo: int, sym: Symbol, rest: string,
                          gates: seq<Gate>, nq: nat, reg: seq<Complex>, fuel: nat) returns (r: Outcome<Run>)
      requires Valid() && 1 <= lineNo <= |lines|
      requires isInitialised ==> IsRegister(reg, nq)
      requires IsKeyword(sym) && Admissible(Snap(), sym, "")
      modifies this
      ensures r.Success? ==> Valid() && Kept(old(Snap()), Snap())
      ensures r.Success? ==> Grew(Run(lineNo, gates, nq, reg), old(isInitialised), r.value, isInitialised)
      ensures r.Success? ==> lineNo <= r.value.lineNo <= |lines| + 1
      ensures r.Success? && !old(isInitialised) ==> r.value.gates == gates
      ensures sym.Init? ==> match ReadInit(rest, lineNo)
        case Failure(e) => r == Failure(e)
        case Success(n) => r == Success(Run(lineNo, gates, n, InitialRegister(reg, n)))
      decreases fuel, 2
    {
      var r0 := Run(lineNo, gates, nq, reg);
      if sym == Init {
        var init := Initialise(lineNo, rest, reg);
        if init.Failure? {
          return Failure(init.error);
        }
        r := Success(Run(lineNo, gates, init.value.0, init.value.1));
        GrewUnchanged(r0, false, r.value, true);
        KeptItself(old(Snap()));
      } else if sym == Def {
        var d := Definition(lineNo, rest);
        if d.Failure? {
          return Failure(d.error);
        }
        r := Success(r0);
        GrewUnchanged(r0, isInitialised, r0, isInitialised);
      } else if sym == EndDef {
        var d := EndDefinition(lineNo, rest);
        if d.Failure? {
          return Failure(d.error);
        }
        r := Success(r0);
        GrewUnchanged(r0, isInitialised, r0, isInitialised);
      } else if sym == For {
        r := ForLoop(lineNo, rest, gates, nq, reg, fuel);
        if r.Success? {
          GrewByCall(r0, r.value);
          KeptByLoop(old(Snap()), Snap());
        }
      } else {
        assert sym == EndFor;
        var d := EndForLoop(lineNo, rest);
        if d.Failure? {
          return Failure(d.error);
        }
        r := Success(r0);
        GrewUnchanged(r0, isInitialised, r0, isInitialised);
      }
    }

    /**
     * `parseLine`: formats the line, classifies it, applies the scope rules and
     * runs the command. A line the first three stages reject fails with their
     * error; a skipped line changes nothing; a gate line appends the gate its
     * builder reads from the rest of the line.
     */
    method ParseLine(lineNo: int, line: string, gates: seq<Gate>, nq: nat, reg: seq<Complex>, fuel: nat)
      returns (r: Outcome<Run>)
      requires Valid() && 1 <= lineNo <= |lines|
      requires isInitialised ==> IsRegister(reg, nq)
      modifies this
      ensures r.Success? ==> Valid() && Kept(old(Snap()), Snap())
      ensures r.Success? ==> Grew(Run(lineNo, gates, nq, reg), old(isInitialised), r.value, isInitialised)
      ensures r.Success? ==> lineNo <= r.value.lineNo <= |lines| + 1
      ensures r.Success? && !old(isInitialised) ==> r.value.gates == gates
      ensures Dispatch(old(Snap()), line, lineNo).Failure? ==> r == Failure(Dispatch(old(Snap()), line, lineNo).error)
      ensures Dispatch(old(Snap()), line, lineNo).Success? ==>
        var (sym, _, rest) := Dispatch(old(Snap()), line, lineNo).value;
        (sym.Skip? ==> r == Success(Run(lineNo, gates, nq, reg)) && Snap() == old(Snap())) &&
        (IsBuiltinGate(sym) ==> r == Appended(BuiltinGate(catalog, sym, rest, nq, lineNo), lineNo, gates, nq, reg))
      decreases fuel, 4
    {
      ghost var d := Dispatch(Snap(), line, lineNo);
      DispatchAdmissible(Snap(), |lines|, builtins, line, lineNo);
      var text := FormatLine(line);
      assert Snap() == old(Snap());
      var c := SymHandler(text, lineNo);
      if c.Failure? {
        return Failure(c.error);
      }
      var (sym, word, rest) := c.value;
      var checked := InitialChecksHandler(sym, lineNo);
      if checked.Failure? {
        return Failure(checked.error);
      }
      assert d == Success((checked.value, word, rest));
      r := CommandHandler(lineNo, checked.value, word, rest, gates, nq, reg, fuel);
    }

    /**
     * `forLoop`: reads the header, opens a frame whose body runs to the end of
     * the file until its `endfor` is met, binds the variable, and for every
     * counter value parses each body line from a copy, re-reading the frame's
     * end line before each; then closes the frame and unbinds the variable. The
     * line number handed back is the one after the last body line parsed. A
     * header with end < start, or no fuel left, ends the run.
     */
    method ForLoop(lineNo: int, rest: string, gates: seq<Gate>, nq: nat, reg: seq<Complex>, fuel: nat)
      returns (r: Outcome<Run>)
      requires Valid() && 1 <= lineNo <= |lines|
      requires isInitialised && !inDef && IsRegister(reg, nq)
      modifies this
      ensures ReadLoopHeader(rest, lineNo).Failure? ==> r == Failure(ReadLoopHeader(rest, lineNo).error)
      ensures r.Success? ==> Valid() && loops == old(loops) && vars == old(vars) && DefsKept(old(Snap()), Snap())
      ensures r.Success? ==> lineNo < r.value.lineNo <= |lines| + 1
      ensures r.Success? ==> r.value.nq == nq && r.value.reg == reg && Extends(gates, r.value.gates, nq)
      decreases fuel, 1
    {
      // The interpreter raises the loop flag before reading the header; a header
      // that fails ends the parse, so the model raises it with the frame push.
      var header := ReadLoopHeader(rest, lineNo);
      if header.Failure? {
        return Failure(header.error);
      }
      var (v, startIdx, endIdx) := header.value;
      if endIdx < startIdx {
        return Failure(Abort("the loop counter is given a negative size"));
      }
      if fuel == 0 {
        return Failure(Abort("nesting bound reached"));
      }
      r := RunLoop(lineNo, v, Counter(startIdx, endIdx), gates, nq, reg, fuel);
    }

    /**
     * The loop of `forLoop`: opens the frame, binds the variable to each
     * counter value in turn and parses the body after each binding, then
     * closes the frame.
     */
    method RunLoop(lineNo: int, v: string, counter: seq<int>, gates: seq<Gate>, nq: nat, reg: seq<Complex>, fuel: nat)
      returns (r: Outcome<Run>)
      requires Valid() && 1 <= lineNo <= |lines| && IsVariableName(v) && |counter| > 0 && fuel > 0
      requires isInitialised && !inDef && IsRegister(reg, nq)
      modifies this
      ensures r.Success? ==> Valid() && loops == old(loops) && vars == old(vars) && DefsKept(old(Snap()), Snap())
      ensures r.Success? ==> lineNo < r.value.lineNo <= |lines| + 1
      ensures r.Success? ==> r.value.nq == nq && r.value.reg == reg && Extends(gates, r.value.gates, nq)
      decreases fuel, 0
    {
      var loopNum := |loops|;
      var loopIdx := |vars|;
      OpenFrame(LoopData(lineNo, |lines|, "", counter), v, IntToString(counter[0]));
      DefsKeptUnchanged(old(Snap()), Snap());
      ExtendsItself(gates, nq);
      var gs := gates;
      var lp := lineNo + 1;
      var i := 0;
      while i < |counter|
        invariant Valid() && isInitialised
        invariant |loops| == loopNum + 1 && loops[..loopNum] == old(loops)
        invariant loops[loopNum].loopLine == lineNo && loops[loopNum].counter == counter
        invariant |vars| == loopIdx + 1 && vars[..loopIdx] == old(vars) && vars[loopIdx].0 == v
        invariant DefsKept(old(Snap()), Snap())
        invariant Extends(gates, gs, nq)
        invariant lineNo + 1 <= lp <= |lines| + 1
      {
        ghost var s1 := Snap();
        Rebind(loopIdx, v, IntToString(loops[loopNum].counter[i]));
        DefsKeptUnchanged(s1, Snap());
        DefsKeptTransitive(old(Snap()), s1, Snap());
        assert vars[..loopIdx] == s1.vars[..loopIdx];
        ghost var s3 := Snap();
        var body := ParseLoopBody(loopNum, gs, nq, reg, fuel - 1);
        if body.Failure? {
          return Failure(body.error);
        }
        FramesKeptPrefix(s3.loops, loops);
        DefsKeptTransitive(old(Snap()), s3, Snap());
        ExtendsTransitive(gates, gs, body.value.1, nq);
        lp, gs := body.value.0, body.value.1;
        i := i + 1;
      }
      ghost var s2 := Snap();
      CloseFrame();
      DefsKeptUnchanged(s2, Snap());
      DefsKeptTransitive(old(Snap()), s2, Snap());
      r := Success(Run(lp, gs, nq, reg));
    }

    /** Opens a loop's frame: pushes its record, binds the loop variable to its first value and raises the loop flag. */
    method OpenFrame(frame: LoopData, v: string, value: string)
      requires Valid() && 0 <= frame.loopLine && frame.endloopLine <= |lines| && IsVariableName(v)
      modifies this
      ensures Valid()
      ensures loops == old(loops) + [frame] && vars == old(vars) + [(v, value)] && inLoop
      ensures defs == old(defs) && isInitialised == old(isInitialised) && inDef == old(inDef)
      ensures currentDefName == old(currentDefName) && symbols == old(symbols)
    {
      PushFrame(Snap(), |lines|, builtins, frame, v, value);
      loops := loops + [frame];
      vars := vars + [(v, value)];
      inLoop := true;
    }

    /** Binds the loop variable at stack position k to the next counter value. */
    method Rebind(k: int, v: string, value: string)
      requires Valid() && 0 <= k < |vars| && IsVariableName(v)
      modifies this
      ensures Valid()
      ensures vars == old(vars)[k := (v, value)] && loops == old(loops) && inLoop == old(inLoop)
      ensures defs == old(defs) && isInitialised == old(isInitialised) && inDef == old(inDef)
      ensures currentDefName == old(currentDefName) && symbols == old(symbols)
    {
      RebindVariable(Snap(), |lines|, builtins, k, v, value);
      vars := vars[k := (v, value)];
    }

    /** Closes the innermost loop's frame: pops its record, lowers the loop flag when no loop is left open and unbinds the loop variable. */
    method CloseFrame()
      requires Valid() && |loops| > 0 && |vars| > 0
      modifies this
      ensures Valid()
      ensures loops == old(loops)[..|old(loops)| - 1] && inLoop == (|loops| != 0) && vars == old(vars)[..|old(vars)| - 1]
      ensures defs == old(defs) && isInitialised == old(isInitialised) && inDef == old(inDef)
      ensures currentDefName == old(currentDefName) && symbols == old(symbols)
    {
      PopFrame(Snap(), |lines|, builtins);
      loops := loops[..|loops| - 1];
      inLoop := |loops| != 0;
      vars := vars[..|vars| - 1];
    }

    /**
     * One pass of `forLoop` over its body: every line from the one after the
     * `for` up to the innermost frame's end line, re-read before each line, is
     * parsed from a copy, and the line number each hands back is dropped. The
     * result is the line after the last one parsed and the gate list.
     */
    method ParseLoopBody(loopNum: int, gates: seq<Gate>, nq: nat, reg: seq<Complex>, fuel: nat)
      returns (r: Outcome<(int, seq<Gate>)>)
      requires Valid() && isInitialised && IsRegister(reg, nq)
      requires loopNum == |loops| - 1 && loopNum >= 0 && loops[loopNum].loopLine <= |lines|
      modifies this
      ensures r.Success? ==> Valid() && isInitialised && Kept(old(Snap()), Snap())
      ensures r.Success? ==> Extends(gates, r.value.1, nq)
      ensures r.Success? ==> old(loops[loopNum].loopLine) < r.value.0 <= |lines| + 1
      decreases fuel, 5
    {
      var gs := gates;
      ExtendsItself(gates, nq);
      KeptItself(Snap());
      var lp := loops[loopNum].loopLine + 1;
      while lp <= loops[loopNum].endloopLine
        invariant Valid() && isInitialised && |loops| == loopNum + 1
        invariant Kept(old(Snap()), Snap())
        invariant Extends(gates, gs, nq)
        invariant old(loops[loopNum].loopLine) < lp <= |lines| + 1
        decreases |lines| + 1 - lp
      {
        ghost var before := Snap();
        var res := ParseLine(lp, lines[lp - 1], gs, nq, reg, fuel);
        if res.Failure? {
          return Failure(res.error);
        }
        KeptTransitive(old(Snap()), before, Snap());
        ExtendsTransitive(gates, gs, res.value.gates, nq);
        gs := res.value.gates;
        lp := lp + 1;
      }
      return Success((lp, gs));
    }

    /**
     * `customGate`: reads the arguments, which must be as many as the macro's
     * parameters; opens a frame binding each parameter to its argument; parses
     * the body lines into a fresh gate list, continuing after the line number
     * each line hands back; appends the composite gate named after the macro;
     * and closes the frame. No fuel left ends the run.
     */
    method CustomGate(lineNo: int, rest: string, sym: string, gates: seq<Gate>, nq: nat, reg: seq<Complex>, fuel: nat)
      returns (r: Outcome<Run>)
      requires Valid() && 1 <= lineNo <= |lines|
      requires isInitialised && !inDef && IsRegister(reg, nq) && sym in defs
      modifies this
      ensures |Words(rest)| != |old(defs)[sym].variables| ==> r == Failure(Assert("invalid number of vars", lineNo))
      ensures r.Success? ==> Valid() && Kept(old(Snap()), Snap())
      ensures r.Success? ==> r.value.lineNo == lineNo && r.value.nq == nq && r.value.reg == reg
      ensures r.Success? ==>
        |r.value.gates| == |gates| + 1 && r.value.gates[..|gates|] == gates &&
        r.value.gates[|gates|].Custom? && r.value.gates[|gates|].name == sym &&
        Extends(gates, r.value.gates, nq)
      decreases fuel, 1
    {
      var funcVars := ReadArguments(rest);
      if |funcVars| != |defs[sym].variables| {
        return Failure(Assert("invalid number of vars", lineNo));
      }
      if fuel == 0 {
        return Failure(Abort("nesting bound reached"));
      }
      var body := CallMacro(sym, funcVars, nq, reg, fuel);
      if body.Failure? {
        return Failure(body.error);
      }
      var g := Custom(sym, body.value);
      ExtendsByOne(gates, g, nq);
      return Success(Run(lineNo, gates + [g], nq, reg));
    }

    /**
     * The call itself: a frame binding each parameter to its argument, the
     * body parsed into a fresh gate list, the frame closed again.
     */
    method CallMacro(sym: string, funcVars: seq<string>, nq: nat, reg: seq<Complex>, fuel: nat)
      returns (r: Outcome<seq<Gate>>)
      requires Valid() && isInitialised && !inDef && IsRegister(reg, nq) && fuel > 0
      requires sym in defs && |funcVars| == |defs[sym].variables|
      modifies this
      ensures r.Success? ==> Valid() && Kept(old(Snap()), Snap())
      ensures r.Success? ==> AllWellFormed(r.value, nq)
      decreases fuel, 0
    {
      var d := defs[sym];
      OpenCall(d.variables, funcVars);
      DefsKeptUnchanged(old(Snap()), Snap());
      ghost var s1 := Snap();
      ghost var visited, handed;
      r, visited, handed := ParseMacroBody(sym, nq, reg, fuel - 1);
      if r.Failure? {
        return;
      }
      ghost var s2 := Snap();
      assert s2.vars == s1.vars && FramesKept(s1.loops, s2.loops) && DefsKept(s1, s2);
      CloseCall(|funcVars|);
      DropFrame(old(vars), [(Marker, Marker)] + Bindings(d.variables, funcVars));
      assert loops == s2.loops;
      DefsKeptUnchanged(s2, Snap());
      DefsKeptTransitive(s1, s2, Snap());
      DefsKeptTransitive(old(Snap()), s1, Snap());
    }

    /**
     * The body loop of `customGate`: the lines strictly between the macro's
     * `def` and `endef`, each parsed into a fresh gate list, continuing after
     * the line number each hands back. `visited` lists the line numbers handed
     * to the line parser and `handed` the ones it handed back; by
     * `BodyWalkLines` they ascend inside the body, and they are `BodyLines` of
     * the definition when no body line is a `for`.
     */
    method ParseMacroBody(sym: string, nq: nat, reg: seq<Complex>, fuel: nat)
      returns (r: Outcome<seq<Gate>>, ghost visited: seq<int>, ghost handed: seq<int>)
      requires Valid() && isInitialised && !inDef && IsRegister(reg, nq) && sym in defs
      modifies this
      ensures r.Success? ==> Valid() && isInitialised && Kept(old(Snap()), Snap())
      ensures r.Success? ==> AllWellFormed(r.value, nq)
      ensures r.Success? ==> BodyWalk(old(defs)[sym], visited, handed)
      decreases fuel, 5
    {
      var d := defs[sym];
      ghost var start := Snap();
      KeptItself(start);
      var body: seq<Gate> := [];
      ExtendsItself([], nq);
      visited, handed := [], [];
      var cg := d.defLine + 1;
      while cg < defs[sym].endefLine
        invariant Valid() && isInitialised
        invariant Kept(start, Snap())
        invariant sym in defs && defs[sym] == d
        invariant Extends([], body, nq)
        invariant 1 <= cg
        invariant BodyWalkSoFar(d, visited, handed, cg)
        decreases d.endefLine - cg
      {
        ghost var before := Snap();
        var res := ParseLine(cg, lines[cg - 1], body, nq, reg, fuel);
        if res.Failure? {
          return Failure(res.error), visited, handed;
        }
        KeptTransitive(start, before, Snap());
        ExtendsTransitive([], body, res.value.gates, nq);
        body := res.value.gates;
        BodyWalkStep(d, visited, handed, cg, res.value.lineNo);
        visited, handed := visited + [cg], handed + [res.value.lineNo];
        cg := res.value.lineNo + 1;
      }
      BodyWalkDone(d, visited, handed, cg);
      assert body[0..] == body;
      return Success(body), visited, handed;
    }

    /**
     * Opens a macro call's frame: pushes the marker, then binds each parameter
     * to its argument in declaration order.
     */
    method OpenCall(names: seq<string>, values: seq<string>)
      requires Valid() && |names| == |values| && AllVariables(names)
      modifies this
      ensures Valid()
      ensures vars == old(vars) + ([(Marker, Marker)] + Bindings(names, values))
      ensures loops == old(loops) && inLoop == old(inLoop)
      ensures defs == old(defs) && isInitialised == old(isInitialised) && inDef == old(inDef)
      ensures currentDefName == old(currentDefName) && symbols == old(symbols)
    {
      var frame := CallFrame(names, values);
      BindingsNames(names, values);
      PushVars(Snap(), |lines|, builtins, frame);
      vars := vars + frame;
    }

    /** Closes a macro call's frame of `count` bindings: pops the bindings, then the marker. */
    method CloseCall(count: nat)
      requires Valid() && count < |vars|
      modifies this
      ensures Valid()
      ensures vars == old(vars)[..|old(vars)| - count - 1]
      ensures loops == old(loops) && inLoop == old(inLoop)
      ensures defs == old(defs) && isInitialised == old(isInitialised) && inDef == old(inDef)
      ensures currentDefName == old(currentDefName) && symbols == old(symbols)
    {
      var i := 0;
      while i < count
        invariant 0 <= i <= count && Valid()
        invariant vars == old(vars)[..|old(vars)| - i]
        invariant loops == old(loops) && inLoop == old(inLoop)
        invariant defs == old(defs) && isInitialised == old(isInitialised) && inDef == old(inDef)
        invariant currentDefName == old(currentDefName) && symbols == old(symbols)
      {
        TruncateVars(Snap(), |lines|, builtins, |vars| - 1);
        vars := vars[..|vars| - 1];
        i := i + 1;
      }
      // the call marker below the arguments
      TruncateVars(Snap(), |lines|, builtins, |vars| - 1);
      vars := vars[..|vars| - 1];
    }

    /**
     * `parse`: every line from the first, each continuing after the line number
     * the previous one handed back; then a definition or loop still open is an
     * error. `allParsed` says that every line parsed without error.
     */
    method Parse(gates: seq<Gate>, nq: nat, reg: seq<Complex>, fuel: nat) returns (r: Outcome<Run>, ghost allParsed: bool)
      requires Valid()
      requires isInitialised ==> IsRegister(reg, nq)
      modifies this
      ensures r.Success? ==> Valid() && !inDef && !inLoop && Kept(old(Snap()), Snap())
      ensures r.Success? ==> Grew(Run(0, gates, nq, reg), old(isInitialised), r.value, isInitialised)
      ensures r.Success? ==> r.value.lineNo >= |lines|
      ensures !allParsed ==> r.Failure?
      ensures allParsed ==> Valid() && Kept(old(Snap()), Snap())
      ensures allParsed && inDef ==> r.Failure? && r.error.Assert? && r.error.message == "EOF - definition not closed"
      ensures allParsed && !inDef && inLoop ==> r.Failure? && r.error.Assert? && r.error.message == "EOF - loop not closed"
      ensures allParsed && !inDef && !inLoop ==> r.Success?
      ensures allParsed && old(loops) == [] ==> !inLoop
    {
      allParsed := false;
      var lineNo := 0;
      var gs, n, rg := gates, nq, reg;
      ExtendsItself(gates, nq);
      KeptItself(Snap());
      while lineNo < |lines|
        invariant Valid() && 0 <= lineNo <= |lines| + 1
        invariant isInitialised ==> IsRegister(rg, n)
        invariant Kept(old(Snap()), Snap())
        invariant Grew(Run(0, gates, nq, reg), old(isInitialised), Run(lineNo, gs, n, rg), isInitialised)
        invariant !isInitialised ==> gs == gates
        decreases |lines| + 1 - lineNo
      {
        lineNo := lineNo + 1;
        ghost var before := Snap();
        var res := ParseLine(lineNo, lines[lineNo - 1], gs, n, rg, fuel);
        if res.Failure? {
          return res, false;
        }
        KeptTransitive(old(Snap()), before, Snap());
        GrewTransitive(Run(0, gates, nq, reg), old(isInitialised), Run(lineNo, gs, n, rg), before.isInitialised, res.value, isInitialised);
        lineNo, gs, n, rg := res.value.lineNo, res.value.gates, res.value.nq, res.value.reg;
      }
      allParsed := true;
      if inDef {
        return Failure(Assert("EOF - definition not closed", lineNo)), allParsed;
      }
      if inLoop {
        // Every loop a line opens is closed before that line returns, so a
        // parse that starts with no loop open never reports this failure.
        return Failure(Assert("EOF - loop not closed", lineNo)), allParsed;
      }
      r := Success(Run(lineNo, gs, n, rg));
    }

    /**
     * `reset`: clears the initialised flag, removes every macro name from the
     * symbol table and empties the macro table. Its one caller runs it after a
     * completed parse, when no definition is open.
     */
    method Reset()
      requires Valid() && !inDef
      modifies this`isInitialised, this`symbols, this`defs
      ensures Valid()
      ensures !isInitialised && defs == map[]
      ensures symbols == old(symbols) - old(defs).Keys
      ensures symbols == builtins
    {
      ghost var s0 := Snap();
      ResetConsistent(s0, |lines|, builtins);
      isInitialised := false;
      symbols := RemoveNames(symbols, defs.Keys);
      defs := map[];
      assert Snap() == s0.(symbols := builtins, defs := map[], isInitialised := false);
    }
  }

  /** The loop of `reset` over the macro names: each is erased from the symbol table in turn. */
  method RemoveNames(symbols: map<string, Symbol>, names: set<string>) returns (out: map<string, Symbol>)
    ensures out == symbols - names
  {
    out := symbols;
    var left := names;
    ghost var removed: set<string> := {};
    while left != {}
      invariant removed + left == names && removed !! left
      invariant out == symbols - removed
      decreases left
    {
      var n :| n in left;
      RemoveOneMore(symbols, removed, n);
      out := out - {n};
      left := left - {n};
      removed := removed + {n};
    }
  }

  /** The parameter loop of `definition`: one word at a time, each checked for its '$'. */
  method ReadDefVars(rest: string, lineNo: int) returns (r: Outcome<seq<string>>)
    ensures r == ReadParameters(rest, lineNo)
  {
    var defVars: seq<string> := [];
    var s := rest;
    PrefixedNothing(ReadParameters(rest, lineNo));
    while true
      invariant ReadParameters(rest, lineNo) == Prefixed(defVars, ReadParameters(s, lineNo))
      decreases |s|
    {
      var v := ExtractWord(s);
      if v.Failed? {
        break;
      }
      if !IsVariableName(v.value) {
        return Failure(Assert("var doesnt start with $", lineNo));
      }
      assert ReadParameters(s, lineNo) == Prefixed([v.value], ReadParameters(v.rest, lineNo));
      PrefixedTwice(defVars, v.value, ReadParameters(v.rest, lineNo));
      defVars := defVars + [v.value];
      s := v.rest;
    }
    assert defVars + [] == defVars;
    return Success(defVars);
  }

  lemma DefinitionHeader(rest: string, symbols: map<string, Symbol>, line: int)
    requires ExtractWord(rest).Got?
    ensures var name := ExtractWord(rest).value;
      ReadDefinition(rest, symbols, line) ==
        if name in symbols then Failure(Assert("Name already defined - '" + name + "'", line))
        else if AllDigits(name) then Failure(Assert("Invalid name, name can't be a number - '" + name + "'", line))
        else match ReadParameters(ExtractWord(rest).rest, line)
          case Failure(e) => Failure(e)
          case Success(ps) => Success((name, ps))
  {
  }

  /** The parameters read so far in front of the outcome of reading the rest. */
  function Prefixed(ps: seq<string>, o: Outcome<seq<string>>): Outcome<seq<string>>
  {
    match o
    case Failure(e) => Failure(e)
    case Success(ws) => Success(ps + ws)
  }

  lemma PrefixedNothing(o: Outcome<seq<string>>)
    ensures Prefixed([], o) == o
  {
    if o.Success? {
      assert [] + o.value == o.value;
    }
  }

  lemma PrefixedTwice(ps: seq<string>, w: string, o: Outcome<seq<string>>)
    ensures Prefixed(ps, Prefixed([w], o)) == Prefixed(ps + [w], o)
  {
    if o.Success? {
      assert ps + ([w] + o.value) == ps + [w] + o.value;
    }
  }

  /** Recording a fresh name as a macro keeps the symbol table matched to the macro table. */
  lemma DefinedValid(symbols: map<string, Symbol>, defs: map<string, DefinitionData>, table: map<string, Symbol>, name: string, d: DefinitionData)
    requires SymbolsValid(symbols, defs, table) && name !in symbols
    ensures name !in defs && name !in table
    ensures SymbolsValid(symbols[name := Macro], defs[name := d], table)
  {
  }

  lemma ConsVariablesAtEnd(ws: seq<string>, w: string)
    requires AllVariables(ws) && IsVariableName(w)
    ensures AllVariables(ws + [w])
  {
    var r := ws + [w];
    forall i | 0 <= i < |r| ensures IsVariableName(r[i]) {
      if i < |ws| {
        assert r[i] == ws[i];
      }
    }
  }
}
