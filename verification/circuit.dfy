/**
 * The simulator object `Qcircuit`: the qubit count, the gate list the
 * interpreter produced and the amplitude register. `Run` applies the gate list
 * to the register in place; `Binary` renders a basis-state index as the bit
 * string printed next to its amplitude.
 */
module Circuit {
  import opened Complex
  import opened Bits
  import opened Gates
  import opened Engine

  class Circuit {
    var numQubits: nat
    var gateList: seq<Gate>
    var register: array<Complex>

    /**
     * Every gate names qubits in 1..numQubits, and the register holds 2^numQubits
     * amplitudes, except after a program without `init`, which leaves the
     * register empty and no gates.
     */
    ghost predicate Valid()
      reads this, register
    {
      AllWellFormed(gateList, numQubits) &&
      (IsRegister(register[..], numQubits) || (register.Length == 0 && gateList == []))
    }

    /** The state `Qcircuit::readFile` leaves once the interpreter has filled the three fields. */
    constructor (nq: nat, gates: seq<Gate>, reg: array<Complex>)
      requires AllWellFormed(gates, nq)
      requires IsRegister(reg[..], nq) || (reg.Length == 0 && gates == [])
      ensures numQubits == nq && gateList == gates && register == reg
      ensures Valid()
    {
      numQubits := nq;
      gateList := gates;
      register := reg;
    }

    /** `Qcircuit::run`: every gate of the list acts once, in list order, on the same register. */
    method Run()
      requires Valid()
      modifies register
      ensures IsRegister(old(register[..]), numQubits) ==> register[..] == ApplyAll(gateList, numQubits, old(register[..]))
      ensures gateList == [] ==> register[..] == old(register[..])
      ensures Valid()
    {
      ghost var r := register[..];
      var i := 0;
      while i < |gateList|
        invariant 0 <= i <= |gateList|
        invariant !IsRegister(r, numQubits) ==> gateList == [] && register[..] == r
        invariant IsRegister(r, numQubits) ==> register[..] == ApplyAll(gateList[..i], numQubits, r)
      {
        assert gateList[..i + 1][..i] == gateList[..i];
        Act(gateList[i], register, numQubits);
        i := i + 1;
      }
      assert gateList[..|gateList|] == gateList;
    }
  }

  /** Running an empty gate list leaves the register as it was. */
  lemma RunEmpty(nq: nat, r: seq<Complex>)
    requires IsRegister(r, nq)
    ensures ApplyAll([], nq, r) == r
  {
  }

  /** Running a list that ends in g is running the rest and then g once. */
  lemma RunLast(gs: seq<Gate>, g: Gate, nq: nat, r: seq<Complex>)
    requires AllWellFormed(gs, nq) && WellFormed(g, nq) && IsRegister(r, nq)
    ensures AllWellFormed(gs + [g], nq)
    ensures ApplyAll(gs + [g], nq, r) == Apply(g, nq, ApplyAll(gs, nq, r))
  {
    ApplyAllAppend(gs, [g], nq, r);
  }

  // ---------------------------------------------------------------- binary

  function DigitChar(isSet: bool): char
  {
    if isSet then '1' else '0'
  }

  /** The n lowest bits of a, most significant first. */
  function Digits(a: nat, n: nat): (s: string)
    ensures |s| == n
  {
    if n == 0 then "" else Digits(a / 2, n - 1) + [DigitChar(a % 2 == 1)]
  }

  /** A string of '0'/'1' read as a base-2 number, most significant character first. */
  function FromBinary(s: string): nat
  {
    if s == [] then 0 else 2 * FromBinary(s[..|s| - 1]) + (if s[|s| - 1] == '1' then 1 else 0)
  }

  /** Only the characters '0' and '1' appear. */
  lemma {:induction false} DigitsAreBinary(a: nat, n: nat)
    ensures forall i :: 0 <= i < n ==> Digits(a, n)[i] in {'0', '1'}
  {
    if n > 0 {
      DigitsAreBinary(a / 2, n - 1);
      assert forall i :: 0 <= i < n - 1 ==> Digits(a, n)[i] == Digits(a / 2, n - 1)[i];
    }
  }

  /** The character n - 1 - i is '1' exactly when bit i of a is set: the lowest bit is rightmost. */
  lemma {:induction false} DigitsBit(a: nat, n: nat, i: nat)
    requires i < n
    ensures Digits(a, n)[n - 1 - i] == '1' <==> Bit(a, i)
  {
    if i > 0 {
      DigitsBit(a / 2, n - 1, i - 1);
      assert Digits(a, n)[n - 1 - i] == Digits(a / 2, n - 1)[n - 1 - i];
    }
  }

  /** Adding the next higher bit in front: what one iteration of `binary` does. */
  lemma {:induction false} DigitsPrepend(a: nat, i: nat)
    ensures Digits(a, i + 1) == [DigitChar(Bit(a, i))] + Digits(a, i)
  {
    if i > 0 {
      DigitsPrepend(a / 2, i - 1);
    }
  }

  /** Reading the n digits back gives a modulo 2^n. */
  lemma {:induction false} FromDigits(a: nat, n: nat)
    ensures FromBinary(Digits(a, n)) == a % Pow2(n)
  {
    if n > 0 {
      var s := Digits(a, n);
      assert s[..|s| - 1] == Digits(a / 2, n - 1);
      FromDigits(a / 2, n - 1);
      HalveDiv(a, Pow2(n - 1));
    }
  }

  /** For 0 <= a < 2^n, `binary(a, n)` read back in base 2 is a. */
  lemma BinaryRoundTrip(a: nat, n: nat)
    requires a < Pow2(n)
    ensures FromBinary(Digits(a, n)) == a
  {
    FromDigits(a, n);
  }

  /**
   * `Qcircuit::binary`: prepends '1' or '0' for each bit under a mask that
   * doubles each round; `mask & a` picks out bit i of a.
   */
  method Binary(a: nat, n: nat) returns (b: string)
    ensures b == Digits(a, n)
    ensures |b| == n
  {
    b := "";
    var mask := 1;
    var i := 0;
    while i < n
      invariant 0 <= i <= n
      invariant mask == Pow2(i)
      invariant b == Digits(a, i)
    {
      ShiftBit(a, i);
      DigitsPrepend(a, i);
      if (a / mask) % 2 == 1 {
        b := "1" + b;
      } else {
        b := "0" + b;
      }
      mask := mask * 2;
      i := i + 1;
    }
  }
}
