/**
 * The gate catalog and the meaning of each gate as a function on registers.
 *
 * A register of n qubits is a sequence of 2^n amplitudes; bit k of an index is
 * qubit k + 1. The functions here state, index by index, what the in-place
 * `act` methods of the engine leave in the register.
 */
module Gates {
  import opened Complex
  import opened Bits

  /**
   * The four matrix entries in the engine's layout m[0..3]: for a pair n0 (active
   * bit clear) and n1 (active bit set), n0 receives m0*r[n0] + m1*r[n1] and n1
   * receives m2*r[n0] + m3*r[n1].
   */
  datatype Entries = Entries(m0: Complex, m1: Complex, m2: Complex, m3: Complex)

  /** A gate: a matrix gate, a swap gate (both with 1-based qubits) or a composite made by a macro call. */
  datatype Gate =
    | Matrix(active: int, entries: Entries, controls: seq<int>)
    | Swap(a: int, b: int, controls: seq<int>)
    | Custom(name: string, gates: seq<Gate>)

  /** The gate kinds the interpreter can build as matrix gates. */
  datatype MatrixKind =
    | Hadamard
    | PauliX
    | PauliY
    | PauliZ
    | PhaseShift(phi: real)
    | RotationX(theta: real)
    | RotationY(theta: real)
    | RotationZ(theta: real)

  /**
   * The entries that involve square roots, sines, cosines or complex exponentials
   * (1/sqrt 2 for Hadamard, polar(1, phi), cos(theta/2), sin(theta/2), ...) are
   * parameters of the model.
   */
  datatype Catalog = Catalog(
    hadamard: Entries,
    phase: real -> Entries,
    rotationX: real -> Entries,
    rotationY: real -> Entries,
    rotationZ: real -> Entries)

  const IdentityEntries: Entries := Entries(One, Zero, Zero, One)
  const XEntries: Entries := Entries(Zero, One, One, Zero)
  const YEntries: Entries := Entries(Zero, MinusI, I, Zero)
  const ZEntries: Entries := Entries(One, Zero, Zero, MinusOne)

  function KindEntries(cat: Catalog, k: MatrixKind): Entries
  {
    match k
    case Hadamard => cat.hadamard
    case PauliX => XEntries
    case PauliY => YEntries
    case PauliZ => ZEntries
    case PhaseShift(phi) => cat.phase(phi)
    case RotationX(theta) => cat.rotationX(theta)
    case RotationY(theta) => cat.rotationY(theta)
    case RotationZ(theta) => cat.rotationZ(theta)
  }

  /** The one-argument constructors (`XGate(activeQubit)`, ...): no controls. */
  function PlainGate(cat: Catalog, k: MatrixKind, active: int): (g: Gate)
    ensures g.Matrix? && g.active == active && g.controls == []
    ensures g.entries == KindEntries(cat, k)
  {
    Matrix(active, KindEntries(cat, k), [])
  }

  /** The controlled constructors delegate to the plain one and then store the control list. */
  function ControlledGate(cat: Catalog, k: MatrixKind, active: int, controls: seq<int>): (g: Gate)
    ensures g.Matrix? && g.controls == controls
    ensures g.active == PlainGate(cat, k, active).active
    ensures g.entries == PlainGate(cat, k, active).entries
  {
    var g := PlainGate(cat, k, active);
    Matrix(g.active, g.entries, controls)
  }

  predicate ValidQubit(q: int, nq: nat)
  {
    1 <= q <= nq
  }

  predicate ValidControls(cs: seq<int>, nq: nat)
  {
    forall j :: 0 <= j < |cs| ==> ValidQubit(cs[j], nq)
  }

  /** Every qubit a gate (or a member of a composite, recursively) names lies in 1..nq. */
  predicate WellFormed(g: Gate, nq: nat)
    decreases g
  {
    match g
    case Matrix(a, _, cs) => ValidQubit(a, nq) && ValidControls(cs, nq)
    case Swap(a, b, cs) => ValidQubit(a, nq) && ValidQubit(b, nq) && ValidControls(cs, nq)
    case Custom(_, gs) => forall i :: 0 <= i < |gs| ==> WellFormed(gs[i], nq)
  }

  predicate AllWellFormed(gs: seq<Gate>, nq: nat)
  {
    forall i :: 0 <= i < |gs| ==> WellFormed(gs[i], nq)
  }

  predicate IsRegister(r: seq<Complex>, nq: nat)
  {
    |r| == Pow2(nq)
  }

  /** The control test: bit cq - 1 of n is set for every control cq. */
  predicate ControlsPass(n: nat, cs: seq<int>)
    requires forall j :: 0 <= j < |cs| ==> cs[j] >= 1
  {
    forall j :: 0 <= j < |cs| ==> Bit(n, cs[j] - 1)
  }

  // ---------------------------------------------------------------- matrix gates

  /** What the pass over index k itself adds to the new amplitude at k. */
  function MatrixOwn(r: seq<Complex>, nq: nat, a: int, m: Entries, cs: seq<int>, k: nat): Complex
    requires IsRegister(r, nq) && ValidQubit(a, nq) && ValidControls(cs, nq) && k < |r|
  {
    if ControlsPass(k, cs) then
      (if Bit(k, a - 1) then Mul(r[k], m.m3) else Mul(r[k], m.m0))
    else r[k]
  }

  /** What the pass over the partner index (k with the active bit inverted) adds to the new amplitude at k. */
  function MatrixCross(r: seq<Complex>, nq: nat, a: int, m: Entries, cs: seq<int>, k: nat): Complex
    requires IsRegister(r, nq) && ValidQubit(a, nq) && ValidControls(cs, nq) && k < |r|
  {
    FlipBound(k, a - 1, nq);
    var p := Flip(k, a - 1);
    if ControlsPass(p, cs) then
      (if Bit(p, a - 1) then Mul(r[p], m.m1) else Mul(r[p], m.m2))
    else Zero
  }

  /** The register after `MatrixGate::act`. */
  function MatrixApplied(r: seq<Complex>, nq: nat, a: int, m: Entries, cs: seq<int>): (s: seq<Complex>)
    requires IsRegister(r, nq) && ValidQubit(a, nq) && ValidControls(cs, nq)
    ensures |s| == |r|
  {
    seq(|r|, k requires 0 <= k < |r| => Add(MatrixOwn(r, nq, a, m, cs, k), MatrixCross(r, nq, a, m, cs, k)))
  }

  // ---------------------------------------------------------------- swap gates

  /**
   * The amplitude `SwapGate::act` leaves at k. A passing index n writes
   * `temp[SwapBits(n)] = r[n]` and a failing one adds `temp[n] += r[n]`, in
   * increasing order of n, so when a control is one of the swapped qubits a
   * failing index can receive a sum or be overwritten.
   */
  function SwapAt(r: seq<Complex>, nq: nat, a: int, b: int, cs: seq<int>, k: nat): Complex
    requires IsRegister(r, nq) && ValidQubit(a, nq) && ValidQubit(b, nq) && ValidControls(cs, nq) && k < |r|
  {
    SwapBitsBound(k, a - 1, b - 1, nq);
    var s := SwapBits(k, a - 1, b - 1);
    if ControlsPass(k, cs) then
      (if ControlsPass(s, cs) then r[s] else Zero)
    else if ControlsPass(s, cs) then
      (if s < k then Add(r[s], r[k]) else r[s])
    else r[k]
  }

  /** The register after `SwapGate::act`. */
  function SwapApplied(r: seq<Complex>, nq: nat, a: int, b: int, cs: seq<int>): (s: seq<Complex>)
    requires IsRegister(r, nq) && ValidQubit(a, nq) && ValidQubit(b, nq) && ValidControls(cs, nq)
    ensures |s| == |r|
  {
    seq(|r|, k requires 0 <= k < |r| => SwapAt(r, nq, a, b, cs, k))
  }

  // ---------------------------------------------------------------- any gate

  /** The register after `g->act(register)`; a composite applies its members in stored order. */
  function Apply(g: Gate, nq: nat, r: seq<Complex>): (s: seq<Complex>)
    requires WellFormed(g, nq) && IsRegister(r, nq)
    ensures |s| == |r|
    decreases g, 1
  {
    match g
    case Matrix(a, m, cs) => MatrixApplied(r, nq, a, m, cs)
    case Swap(a, b, cs) => SwapApplied(r, nq, a, b, cs)
    case Custom(_, gs) => ApplyAll(gs, nq, r)
  }

  /** The register after applying each gate of gs once, in order. */
  function ApplyAll(gs: seq<Gate>, nq: nat, r: seq<Complex>): (s: seq<Complex>)
    requires AllWellFormed(gs, nq) && IsRegister(r, nq)
    ensures |s| == |r|
    decreases gs, 0
  {
    if gs == [] then r
    else
      var last := gs[|gs| - 1];
      assert last in gs;
      Apply(last, nq, ApplyAll(gs[..|gs| - 1], nq, r))
  }

  // ---------------------------------------------------------------- properties

  /** Controls that avoid the active qubit see the same bits at k and at k's partner. */
  lemma FlipKeepsControls(k: nat, a: int, cs: seq<int>, nq: nat)
    requires ValidQubit(a, nq) && ValidControls(cs, nq) && a !in cs
    ensures ControlsPass(Flip(k, a - 1), cs) == ControlsPass(k, cs)
  {
    forall j | 0 <= j < |cs| ensures Bit(Flip(k, a - 1), cs[j] - 1) == Bit(k, cs[j] - 1) {
      assert cs[j] != a;
      FlipBit(k, a - 1, cs[j] - 1);
    }
  }

  /** Entries {1, 0, 0, 1} leave every amplitude where it is, whatever the controls. */
  lemma MatrixIdentity(r: seq<Complex>, nq: nat, a: int, cs: seq<int>)
    requires IsRegister(r, nq) && ValidQubit(a, nq) && ValidControls(cs, nq)
    ensures MatrixApplied(r, nq, a, IdentityEntries, cs) == r
  {
    var s := MatrixApplied(r, nq, a, IdentityEntries, cs);
    forall k | 0 <= k < |r| ensures s[k] == r[k] {
      assert MatrixOwn(r, nq, a, IdentityEntries, cs, k) == r[k];
      assert MatrixCross(r, nq, a, IdentityEntries, cs, k) == Zero;
    }
  }

  /** The X entries with no controls move the amplitude at n to n with bit a - 1 inverted. */
  lemma PauliXFlips(r: seq<Complex>, nq: nat, a: int, n: nat)
    requires IsRegister(r, nq) && ValidQubit(a, nq) && n < |r|
    ensures Flip(n, a - 1) < |r|
    ensures MatrixApplied(r, nq, a, XEntries, [])[Flip(n, a - 1)] == r[n]
  {
    FlipBound(n, a - 1, nq);
    var p := Flip(n, a - 1);
    FlipFlip(n, a - 1);
    FlipBit(n, a - 1, a - 1);
    assert MatrixOwn(r, nq, a, XEntries, [], p) == Zero;
    assert MatrixCross(r, nq, a, XEntries, [], p) == r[n];
  }

  /**
   * For a pair n0 (active bit clear) and n1 = n0 + 2^(a-1) that both pass the
   * control test, the new amplitudes are m0*r[n0] + m1*r[n1] and m2*r[n0] + m3*r[n1].
   */
  lemma MatrixPair(r: seq<Complex>, nq: nat, a: int, m: Entries, cs: seq<int>, n0: nat)
    requires IsRegister(r, nq) && ValidQubit(a, nq) && ValidControls(cs, nq) && n0 < |r|
    requires !Bit(n0, a - 1)
    requires ControlsPass(n0, cs) && ControlsPass(n0 + Pow2(a - 1), cs)
    ensures n0 + Pow2(a - 1) < |r|
    ensures MatrixApplied(r, nq, a, m, cs)[n0]
         == Add(Mul(r[n0], m.m0), Mul(r[n0 + Pow2(a - 1)], m.m1))
    ensures MatrixApplied(r, nq, a, m, cs)[n0 + Pow2(a - 1)]
         == Add(Mul(r[n0], m.m2), Mul(r[n0 + Pow2(a - 1)], m.m3))
  {
    AddBound(n0, a - 1, nq);
    var n1 := n0 + Pow2(a - 1);
    assert Flip(n0, a - 1) == n1;
    FlipBit(n0, a - 1, a - 1);
    FlipFlip(n0, a - 1);
    assert Flip(n1, a - 1) == n0;
  }

  /** If the active qubit is not a control, an index that fails the control test keeps its amplitude. */
  lemma MatrixControlsFail(r: seq<Complex>, nq: nat, a: int, m: Entries, cs: seq<int>, k: nat)
    requires IsRegister(r, nq) && ValidQubit(a, nq) && ValidControls(cs, nq) && k < |r|
    requires a !in cs && !ControlsPass(k, cs)
    ensures MatrixApplied(r, nq, a, m, cs)[k] == r[k]
  {
    FlipKeepsControls(k, a, cs, nq);
  }

  /**
   * If the active qubit is not a control, an index that passes the control test
   * gets the same amplitude as under the uncontrolled gate.
   */
  lemma MatrixControlsPass(r: seq<Complex>, nq: nat, a: int, m: Entries, cs: seq<int>, k: nat)
    requires IsRegister(r, nq) && ValidQubit(a, nq) && ValidControls(cs, nq) && k < |r|
    requires a !in cs && ControlsPass(k, cs)
    ensures MatrixApplied(r, nq, a, m, cs)[k] == MatrixApplied(r, nq, a, m, [])[k]
  {
    FlipKeepsControls(k, a, cs, nq);
  }

  /** Controls that avoid both swapped qubits see the same bits at k and at its swapped index. */
  lemma SwapKeepsControls(k: nat, a: int, b: int, cs: seq<int>, nq: nat)
    requires ValidQubit(a, nq) && ValidQubit(b, nq) && ValidControls(cs, nq) && a !in cs && b !in cs
    ensures ControlsPass(SwapBits(k, a - 1, b - 1), cs) == ControlsPass(k, cs)
  {
    forall j | 0 <= j < |cs| ensures Bit(SwapBits(k, a - 1, b - 1), cs[j] - 1) == Bit(k, cs[j] - 1) {
      assert cs[j] != a && cs[j] != b;
      SwapBitsBit(k, a - 1, b - 1, cs[j] - 1);
    }
  }

  /**
   * With controls disjoint from the swapped qubits, a passing index n moves its
   * amplitude to n with bits a - 1 and b - 1 exchanged, and a failing one stays.
   */
  lemma SwapMoves(r: seq<Complex>, nq: nat, a: int, b: int, cs: seq<int>, n: nat)
    requires IsRegister(r, nq) && ValidQubit(a, nq) && ValidQubit(b, nq) && ValidControls(cs, nq)
    requires a !in cs && b !in cs && n < |r|
    ensures SwapBits(n, a - 1, b - 1) < |r|
    ensures ControlsPass(n, cs) ==> SwapApplied(r, nq, a, b, cs)[SwapBits(n, a - 1, b - 1)] == r[n]
    ensures !ControlsPass(n, cs) ==> SwapApplied(r, nq, a, b, cs)[n] == r[n]
  {
    SwapBitsBound(n, a - 1, b - 1, nq);
    var s := SwapBits(n, a - 1, b - 1);
    SwapKeepsControls(n, a, b, cs, nq);
    SwapKeepsControls(s, a, b, cs, nq);
    SwapBitsTwice(n, a - 1, b - 1);
  }

  /** Applying the same swap twice restores the register when its controls avoid both swapped qubits. */
  lemma SwapTwice(r: seq<Complex>, nq: nat, a: int, b: int, cs: seq<int>)
    requires IsRegister(r, nq) && ValidQubit(a, nq) && ValidQubit(b, nq) && ValidControls(cs, nq)
    requires a !in cs && b !in cs
    ensures SwapApplied(SwapApplied(r, nq, a, b, cs), nq, a, b, cs) == r
  {
    var s1 := SwapApplied(r, nq, a, b, cs);
    var s2 := SwapApplied(s1, nq, a, b, cs);
    forall k | 0 <= k < |r| ensures s2[k] == r[k] {
      SwapBitsBound(k, a - 1, b - 1, nq);
      var t := SwapBits(k, a - 1, b - 1);
      SwapBitsTwice(k, a - 1, b - 1);
      SwapKeepsControls(k, a, b, cs, nq);
      SwapKeepsControls(t, a, b, cs, nq);
      assert s1[t] == SwapAt(r, nq, a, b, cs, t);
    }
  }

  /** A swap of a qubit with itself leaves the register as it was, whatever its controls. */
  lemma SwapSameQubit(r: seq<Complex>, nq: nat, a: int, cs: seq<int>)
    requires IsRegister(r, nq) && ValidQubit(a, nq) && ValidControls(cs, nq)
    ensures SwapApplied(r, nq, a, a, cs) == r
  {
    var s := SwapApplied(r, nq, a, a, cs);
    forall k | 0 <= k < |r| ensures s[k] == r[k] {
      assert SwapBits(k, a - 1, a - 1) == k;
    }
  }

  /**
   * With a control on a swapped qubit the second swap need not undo the first:
   * on two qubits, swapping 1 and 2 under control 1 empties index 1 (its partner
   * index 2 fails the control), so any amplitude there is lost.
   */
  lemma ControlOnSwappedQubit(r: seq<Complex>)
    requires IsRegister(r, 2) && r[1] != Zero
    ensures SwapApplied(SwapApplied(r, 2, 1, 2, [1]), 2, 1, 2, [1]) != r
  {
    var s1 := SwapApplied(r, 2, 1, 2, [1]);
    var s2 := SwapApplied(s1, 2, 1, 2, [1]);
    assert Bit(1, 0) && !Bit(1, 1) && !Bit(2, 0) && Bit(2, 1);
    assert SwapBits(1, 0, 1) == 2;
    var cs := [1];
    assert cs[0] - 1 == 0 && !Bit(2, cs[0] - 1);
    assert ControlsPass(1, cs) && !ControlsPass(2, cs);
    assert s2[1] == Zero;
  }

  /** Acting with the members L1 ++ L2 is acting with L1 and then with L2. */
  lemma {:induction false} ApplyAllAppend(l1: seq<Gate>, l2: seq<Gate>, nq: nat, r: seq<Complex>)
    requires AllWellFormed(l1, nq) && AllWellFormed(l2, nq) && IsRegister(r, nq)
    ensures AllWellFormed(l1 + l2, nq)
    ensures ApplyAll(l1 + l2, nq, r) == ApplyAll(l2, nq, ApplyAll(l1, nq, r))
  {
    assert AllWellFormed(l1 + l2, nq) by {
      forall i | 0 <= i < |l1 + l2| ensures WellFormed((l1 + l2)[i], nq) {
        if i >= |l1| {
          assert (l1 + l2)[i] == l2[i - |l1|];
        }
      }
    }
    if l2 == [] {
      assert l1 + l2 == l1;
    } else {
      var init := l2[..|l2| - 1];
      assert AllWellFormed(init, nq);
      ApplyAllAppend(l1, init, nq, r);
      assert (l1 + l2)[..|l1 + l2| - 1] == l1 + init;
    }
  }

  /** A composite with no members leaves the register unchanged. */
  lemma EmptyCustomUnchanged(name: string, nq: nat, r: seq<Complex>)
    requires IsRegister(r, nq)
    ensures Apply(Custom(name, []), nq, r) == r
  {
  }

  /** A composite of L1 ++ L2 acts as the composite of L1 followed by the composite of L2. */
  lemma CustomSplits(name: string, l1: seq<Gate>, l2: seq<Gate>, nq: nat, r: seq<Complex>)
    requires AllWellFormed(l1, nq) && AllWellFormed(l2, nq) && IsRegister(r, nq)
    ensures WellFormed(Custom(name, l1 + l2), nq)
    ensures Apply(Custom(name, l1 + l2), nq, r) == Apply(Custom(name, l2), nq, Apply(Custom(name, l1), nq, r))
  {
    ApplyAllAppend(l1, l2, nq, r);
  }
}
