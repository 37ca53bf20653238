/**
 * The in-place gate engine: `MatrixGate::act`, `SwapGate::act` and
 * `CustomGate::act`. Each act accumulates into a zero-initialised temporary
 * buffer during one pass over the indices and copies it back over the register
 * afterwards; the resulting register is the function of the old one stated in
 * module Gates.
 */
module Engine {
  import opened Complex
  import opened Bits
  import opened Gates

  /** The control loop shared by both act methods: `n % 2^cq >= 2^(cq-1)` for every control cq. */
  method ControlsPassed(n: nat, cs: seq<int>, ghost nq: nat) returns (passed: bool)
    requires ValidControls(cs, nq)
    ensures passed == ControlsPass(n, cs)
  {
    passed := true;
    var i := 0;
    while i < |cs|
      invariant 0 <= i <= |cs|
      invariant passed == (forall j :: 0 <= j < i ==> Bit(n, cs[j] - 1))
    {
      var cq := cs[i];
      QubitSetIsBit(n, cq);
      if !(n % Pow2(cq) >= Pow2(cq - 1)) {
        passed := false;
      }
      i := i + 1;
    }
  }

  /**
   * temp[k] after the pass has visited the indices below n: the visit of k adds
   * k's own contribution and the visit of k's partner adds the cross term.
   */
  ghost function MatrixPartial(r: seq<Complex>, nq: nat, a: int, m: Entries, cs: seq<int>, k: nat, n: nat): Complex
    requires IsRegister(r, nq) && ValidQubit(a, nq) && ValidControls(cs, nq) && k < |r|
  {
    var ownDone := k < n;
    var crossDone := Flip(k, a - 1) < n;
    if ownDone && crossDone then Add(MatrixOwn(r, nq, a, m, cs, k), MatrixCross(r, nq, a, m, cs, k))
    else if ownDone then MatrixOwn(r, nq, a, m, cs, k)
    else if crossDone then MatrixCross(r, nq, a, m, cs, k)
    else Zero
  }

  /** The whole buffer after the pass has visited the indices below n. */
  ghost function MatrixPass(r: seq<Complex>, nq: nat, a: int, m: Entries, cs: seq<int>, n: nat): (t: seq<Complex>)
    requires IsRegister(r, nq) && ValidQubit(a, nq) && ValidControls(cs, nq)
    ensures |t| == |r|
  {
    seq(|r|, k requires 0 <= k < |r| => MatrixPartial(r, nq, a, m, cs, k, n))
  }

  method ActMatrix(reg: array<Complex>, a: int, m: Entries, cs: seq<int>, ghost nq: nat)
    requires IsRegister(reg[..], nq) && ValidQubit(a, nq) && ValidControls(cs, nq)
    modifies reg
    ensures reg[..] == MatrixApplied(old(reg[..]), nq, a, m, cs)
  {
    ghost var r := reg[..];
    var temp := new Complex[reg.Length](_ => Zero);
    var half := Pow2(a - 1);
    MatrixPassStarts(r, nq, a, m, cs, temp[..]);
    var n := 0;
    while n < reg.Length
      invariant 0 <= n <= reg.Length
      invariant reg[..] == r
      invariant temp[..] == MatrixPass(r, nq, a, m, cs, n)
    {
      MatrixVisit(reg, temp, n, half, a, m, cs, nq);
      MatrixStepAdvances(r, nq, a, m, cs, n);
      n := n + 1;
    }
    MatrixPassComplete(r, nq, a, m, cs);
    CopyBack(reg, temp);
  }

  /** One iteration of the pass: index n adds its weighted amplitude to itself and, when its controls pass, to its partner. */
  method MatrixVisit(reg: array<Complex>, temp: array<Complex>, n: nat, half: nat, a: int, m: Entries, cs: seq<int>, ghost nq: nat)
    requires reg != temp && reg.Length == temp.Length && n < reg.Length
    requires IsRegister(reg[..], nq) && ValidQubit(a, nq) && ValidControls(cs, nq) && half == Pow2(a - 1)
    modifies temp
    ensures temp[..] == MatrixStep(reg[..], nq, a, m, cs, n, old(temp[..]))
  {
    var passed := ControlsPassed(n, cs, nq);
    MatrixContribution(reg[..], nq, a, m, cs, n);
    if passed {
      QubitSetIsBit(n, a);
      if n % Pow2(a) >= half {
        temp[n] := Add(temp[n], Mul(reg[n], m.m3));
        temp[n - half] := Add(temp[n - half], Mul(reg[n], m.m1));
      } else {
        temp[n] := Add(temp[n], Mul(reg[n], m.m0));
        temp[n + half] := Add(temp[n + half], Mul(reg[n], m.m2));
      }
    } else {
      temp[n] := Add(temp[n], reg[n]);
    }
  }

  /** The buffer after the pass visits index n. */
  ghost function MatrixStep(r: seq<Complex>, nq: nat, a: int, m: Entries, cs: seq<int>, n: nat, t: seq<Complex>): (s: seq<Complex>)
    requires IsRegister(r, nq) && ValidQubit(a, nq) && ValidControls(cs, nq) && n < |r| && |t| == |r|
    ensures |s| == |t|
  {
    FlipBound(n, a - 1, nq);
    var p := Flip(n, a - 1);
    if ControlsPass(n, cs) then
      t[n := Add(t[n], MatrixOwn(r, nq, a, m, cs, n))][p := Add(t[p], MatrixCross(r, nq, a, m, cs, p))]
    else t[n := Add(t[n], MatrixOwn(r, nq, a, m, cs, n))]
  }

  /** What index n contributes during the pass: to itself, and (when it passes the controls) to its partner. */
  lemma MatrixContribution(r: seq<Complex>, nq: nat, a: int, m: Entries, cs: seq<int>, n: nat)
    requires IsRegister(r, nq) && ValidQubit(a, nq) && ValidControls(cs, nq) && n < |r|
    ensures Flip(n, a - 1) < |r| && Flip(n, a - 1) != n
    ensures !Bit(n, a - 1) ==> Flip(n, a - 1) == n + Pow2(a - 1)
    ensures Bit(n, a - 1) ==> n >= Pow2(a - 1) && Flip(n, a - 1) == n - Pow2(a - 1)
    ensures MatrixOwn(r, nq, a, m, cs, n)
         == if !ControlsPass(n, cs) then r[n] else if Bit(n, a - 1) then Mul(r[n], m.m3) else Mul(r[n], m.m0)
    ensures ControlsPass(n, cs) ==> (
              MatrixCross(r, nq, a, m, cs, Flip(n, a - 1))
           == if Bit(n, a - 1) then Mul(r[n], m.m1) else Mul(r[n], m.m2))
  {
    FlipBound(n, a - 1, nq);
    FlipFlip(n, a - 1);
    FlipNotSame(n, a - 1);
    if Bit(n, a - 1) {
      BitSetAtLeast(n, a - 1);
    }
  }

  lemma MatrixPassStarts(r: seq<Complex>, nq: nat, a: int, m: Entries, cs: seq<int>, t: seq<Complex>)
    requires IsRegister(r, nq) && ValidQubit(a, nq) && ValidControls(cs, nq) && |t| == |r|
    requires forall k :: 0 <= k < |t| ==> t[k] == Zero
    ensures t == MatrixPass(r, nq, a, m, cs, 0)
  {
  }

  lemma MatrixStepAdvances(r: seq<Complex>, nq: nat, a: int, m: Entries, cs: seq<int>, n: nat)
    requires IsRegister(r, nq) && ValidQubit(a, nq) && ValidControls(cs, nq) && n < |r|
    ensures MatrixStep(r, nq, a, m, cs, n, MatrixPass(r, nq, a, m, cs, n)) == MatrixPass(r, nq, a, m, cs, n + 1)
  {
    var t := MatrixPass(r, nq, a, m, cs, n);
    forall k | 0 <= k < |t| ensures MatrixStep(r, nq, a, m, cs, n, t)[k] == MatrixPass(r, nq, a, m, cs, n + 1)[k] {
      MatrixStepAt(r, nq, a, m, cs, n, t, k);
    }
  }

  lemma MatrixStepAt(r: seq<Complex>, nq: nat, a: int, m: Entries, cs: seq<int>, n: nat, t: seq<Complex>, k: nat)
    requires IsRegister(r, nq) && ValidQubit(a, nq) && ValidControls(cs, nq) && n < |r| && |t| == |r| && k < |t|
    requires t[k] == MatrixPartial(r, nq, a, m, cs, k, n)
    ensures MatrixStep(r, nq, a, m, cs, n, t)[k] == MatrixPartial(r, nq, a, m, cs, k, n + 1)
  {
    FlipBound(n, a - 1, nq);
    FlipNotSame(n, a - 1);
    FlipFlip(n, a - 1);
    FlipFlip(k, a - 1);
    var o := MatrixOwn(r, nq, a, m, cs, k);
    var x := MatrixCross(r, nq, a, m, cs, k);
    if k == n {
      assert MatrixStep(r, nq, a, m, cs, n, t)[k] == Add(t[k], o);
      if Flip(k, a - 1) < n {
        AddComm(x, o);
      } else {
        AddZeroLeft(o);
      }
    } else if k == Flip(n, a - 1) && ControlsPass(n, cs) {
      assert MatrixStep(r, nq, a, m, cs, n, t)[k] == Add(t[k], x);
      if k >= n {
        AddZeroLeft(x);
      }
    } else if k == Flip(n, a - 1) {
      FlipBound(k, a - 1, nq);
      assert x == Zero;
      assert MatrixStep(r, nq, a, m, cs, n, t)[k] == t[k];
      if k < n {
        AddZeroRight(o);
      }
    } else {
      assert MatrixStep(r, nq, a, m, cs, n, t)[k] == t[k];
    }
  }

  lemma MatrixPassComplete(r: seq<Complex>, nq: nat, a: int, m: Entries, cs: seq<int>)
    requires IsRegister(r, nq) && ValidQubit(a, nq) && ValidControls(cs, nq)
    ensures MatrixPass(r, nq, a, m, cs, |r|) == MatrixApplied(r, nq, a, m, cs)
  {
    forall k | 0 <= k < |r| ensures MatrixPass(r, nq, a, m, cs, |r|)[k] == MatrixApplied(r, nq, a, m, cs)[k] {
      FlipBound(k, a - 1, nq);
    }
  }

  /** The final loop of both act methods: the register takes the temporary buffer's values. */
  method CopyBack(reg: array<Complex>, temp: array<Complex>)
    requires reg.Length == temp.Length && reg != temp
    modifies reg
    ensures reg[..] == old(temp[..])
  {
    var n := 0;
    while n < reg.Length
      invariant 0 <= n <= reg.Length
      invariant forall k :: 0 <= k < n ==> reg[k] == temp[k]
    {
      reg[n] := temp[n];
      n := n + 1;
    }
  }

  /** temp[k] after the swap pass has visited the indices below n. */
  ghost function SwapPartial(r: seq<Complex>, nq: nat, a: int, b: int, cs: seq<int>, k: nat, n: nat): Complex
    requires IsRegister(r, nq) && ValidQubit(a, nq) && ValidQubit(b, nq) && ValidControls(cs, nq) && k < |r|
  {
    SwapBitsBound(k, a - 1, b - 1, nq);
    var s := SwapBits(k, a - 1, b - 1);
    if ControlsPass(k, cs) then
      (if s < n && ControlsPass(s, cs) then r[s] else Zero)
    else if s < n && ControlsPass(s, cs) then
      (if k < n && s < k then Add(r[s], r[k]) else r[s])
    else if k < n then r[k]
    else Zero
  }

  /** The whole buffer after the swap pass has visited the indices below n. */
  ghost function SwapPass(r: seq<Complex>, nq: nat, a: int, b: int, cs: seq<int>, n: nat): (t: seq<Complex>)
    requires IsRegister(r, nq) && ValidQubit(a, nq) && ValidQubit(b, nq) && ValidControls(cs, nq)
    ensures |t| == |r|
  {
    seq(|r|, k requires 0 <= k < |r| => SwapPartial(r, nq, a, b, cs, k, n))
  }

  method ActSwap(reg: array<Complex>, a: int, b: int, cs: seq<int>, ghost nq: nat)
    requires IsRegister(reg[..], nq) && ValidQubit(a, nq) && ValidQubit(b, nq) && ValidControls(cs, nq)
    modifies reg
    ensures reg[..] == SwapApplied(old(reg[..]), nq, a, b, cs)
  {
    ghost var r := reg[..];
    var temp := new Complex[reg.Length](_ => Zero);
    SwapPassStarts(r, nq, a, b, cs, temp[..]);
    var n := 0;
    while n < reg.Length
      invariant 0 <= n <= reg.Length
      invariant reg[..] == r
      invariant temp[..] == SwapPass(r, nq, a, b, cs, n)
    {
      SwapVisit(reg, temp, n, a, b, cs, nq);
      SwapStepAdvances(r, nq, a, b, cs, n);
      n := n + 1;
    }
    SwapPassComplete(r, nq, a, b, cs);
    CopyBack(reg, temp);
  }

  /** One iteration of the swap pass: a passing index moves its amplitude, a failing one adds it in place. */
  method SwapVisit(reg: array<Complex>, temp: array<Complex>, n: nat, a: int, b: int, cs: seq<int>, ghost nq: nat)
    requires reg != temp && reg.Length == temp.Length && n < reg.Length
    requires IsRegister(reg[..], nq) && ValidQubit(a, nq) && ValidQubit(b, nq) && ValidControls(cs, nq)
    modifies temp
    ensures temp[..] == SwapStep(reg[..], nq, a, b, cs, n, old(temp[..]))
  {
    var passed := ControlsPassed(n, cs, nq);
    SwapBitsBound(n, a - 1, b - 1, nq);
    if passed {
      var result := SwappedIndex(n, a, b);
      temp[result] := reg[n];
    } else {
      temp[n] := Add(temp[n], reg[n]);
    }
  }

  /** The buffer after the swap pass visits index n. */
  ghost function SwapStep(r: seq<Complex>, nq: nat, a: int, b: int, cs: seq<int>, n: nat, t: seq<Complex>): (s: seq<Complex>)
    requires IsRegister(r, nq) && ValidQubit(a, nq) && ValidQubit(b, nq) && ValidControls(cs, nq) && n < |r| && |t| == |r|
    ensures |s| == |t|
  {
    SwapBitsBound(n, a - 1, b - 1, nq);
    if ControlsPass(n, cs) then t[SwapBits(n, a - 1, b - 1) := r[n]]
    else t[n := Add(t[n], r[n])]
  }

  lemma SwapPassStarts(r: seq<Complex>, nq: nat, a: int, b: int, cs: seq<int>, t: seq<Complex>)
    requires IsRegister(r, nq) && ValidQubit(a, nq) && ValidQubit(b, nq) && ValidControls(cs, nq) && |t| == |r|
    requires forall k :: 0 <= k < |t| ==> t[k] == Zero
    ensures t == SwapPass(r, nq, a, b, cs, 0)
  {
  }

  lemma SwapStepAdvances(r: seq<Complex>, nq: nat, a: int, b: int, cs: seq<int>, n: nat)
    requires IsRegister(r, nq) && ValidQubit(a, nq) && ValidQubit(b, nq) && ValidControls(cs, nq) && n < |r|
    ensures SwapStep(r, nq, a, b, cs, n, SwapPass(r, nq, a, b, cs, n)) == SwapPass(r, nq, a, b, cs, n + 1)
  {
    var t := SwapPass(r, nq, a, b, cs, n);
    forall k | 0 <= k < |t| ensures SwapStep(r, nq, a, b, cs, n, t)[k] == SwapPass(r, nq, a, b, cs, n + 1)[k] {
      SwapStepAt(r, nq, a, b, cs, n, t, k);
    }
  }

  lemma SwapStepAt(r: seq<Complex>, nq: nat, a: int, b: int, cs: seq<int>, n: nat, t: seq<Complex>, k: nat)
    requires IsRegister(r, nq) && ValidQubit(a, nq) && ValidQubit(b, nq) && ValidControls(cs, nq) && n < |r| && |t| == |r| && k < |t|
    requires t[k] == SwapPartial(r, nq, a, b, cs, k, n)
    ensures SwapStep(r, nq, a, b, cs, n, t)[k] == SwapPartial(r, nq, a, b, cs, k, n + 1)
  {
    SwapBitsTwice(n, a - 1, b - 1);
    SwapBitsTwice(k, a - 1, b - 1);
    SwapBitsBound(n, a - 1, b - 1, nq);
    SwapBitsBound(k, a - 1, b - 1, nq);
  }

  lemma SwapPassComplete(r: seq<Complex>, nq: nat, a: int, b: int, cs: seq<int>)
    requires IsRegister(r, nq) && ValidQubit(a, nq) && ValidQubit(b, nq) && ValidControls(cs, nq)
    ensures SwapPass(r, nq, a, b, cs, |r|) == SwapApplied(r, nq, a, b, cs)
  {
    forall k | 0 <= k < |r| ensures SwapPass(r, nq, a, b, cs, |r|)[k] == SwapApplied(r, nq, a, b, cs)[k] {
      SwapBitsBound(k, a - 1, b - 1, nq);
    }
  }

  /** `n ^ ((x << (a-1)) | (x << (b-1)))` with `x = bit1 ^ bit2`, where bit1 and bit2 are `(n >> (q-1)) & 1`. */
  method SwappedIndex(n: nat, a: int, b: int) returns (result: nat)
    requires a >= 1 && b >= 1
    ensures result == SwapBits(n, a - 1, b - 1)
  {
    var bit1 := (n / Pow2(a - 1)) % 2;
    var bit2 := (n / Pow2(b - 1)) % 2;
    ShiftBit(n, a - 1);
    ShiftBit(n, b - 1);
    result := n;
    if bit1 != bit2 {
      FlipBit(n, a - 1, b - 1);
      if bit1 == 1 {
        BitSetAtLeast(n, a - 1);
        result := n - Pow2(a - 1) + Pow2(b - 1);
      } else {
        BitSetAtLeast(n, b - 1);
        result := n + Pow2(a - 1) - Pow2(b - 1);
      }
    }
  }

  /** `g->act(register)`: the virtual call becomes a match on the gate. */
  method Act(g: Gate, reg: array<Complex>, ghost nq: nat)
    requires WellFormed(g, nq) && IsRegister(reg[..], nq)
    modifies reg
    ensures reg[..] == Apply(g, nq, old(reg[..]))
    decreases g
  {
    match g
    case Matrix(a, m, cs) =>
      ActMatrix(reg, a, m, cs, nq);
    case Swap(a, b, cs) =>
      ActSwap(reg, a, b, cs, nq);
    case Custom(_, gs) =>
      // CustomGate::act: each member once, in stored order, on the same register
      var i := 0;
      while i < |gs|
        invariant 0 <= i <= |gs|
        invariant reg[..] == ApplyAll(gs[..i], nq, old(reg[..]))
      {
        assert gs[i] in gs;
        assert gs[..i + 1][..i] == gs[..i];
        Act(gs[i], reg, nq);
        i := i + 1;
      }
      assert gs[..|gs|] == gs;
  }
}
