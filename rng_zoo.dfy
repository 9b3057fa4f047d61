/**
 * The deterministic LCG generator of the RNG zoo: x(k+1) = (3 x(k) + 7) mod 10
 * from x(0) = 1, one decimal digit per step.
 */
module RngZoo {

  const Modulus := 10
  const Multiplier := 3
  const Increment := 7
  const Seed := 1

  /** The generator state after k steps. */
  function LcgState(k: nat): (x: int)
    ensures 0 <= x < Modulus
  {
    if k == 0 then Seed else (Multiplier * LcgState(k - 1) + Increment) % Modulus
  }

  /** `str(x)` for a single decimal digit. */
  function DigitString(x: int): (s: string)
    requires 0 <= x < 10
    ensures |s| == 1 && '0' <= s[0] <= '9'
  {
    [('0' as int + x) as char]
  }

  /** `gen_lcg_mod10(n)`, collected: the k-th string yielded is the state after k + 1 steps. */
  method GenLcgMod10(n: int) returns (out: seq<string>)
    ensures |out| == if n > 0 then n else 0
    ensures forall k :: 0 <= k < |out| ==> out[k] == DigitString(LcgState(k + 1))
  {
    var x := Seed;
    out := [];
    var i := 0;
    while i < n
      invariant 0 <= i <= (if n > 0 then n else 0) && |out| == i
      invariant x == LcgState(i)
      invariant forall k :: 0 <= k < i ==> out[k] == DigitString(LcgState(k + 1))
    {
      x := (Multiplier * x + Increment) % Modulus;
      out := out + [DigitString(x)];
      i := i + 1;
    }
  }

  /** The states run through the cycle 1, 0, 7, 8 and back. */
  lemma {:induction false} CycleOfFour(k: nat)
    ensures LcgState(k) == [1, 0, 7, 8][k % 4]
  {
    if k > 0 {
      CycleOfFour(k - 1);
      assert k % 4 == ((k - 1) % 4 + 1) % 4;
    }
  }

  /** The sequence of values is periodic with period 4. */
  lemma PeriodFour(k: nat)
    ensures LcgState(k + 4) == LcgState(k)
  {
    CycleOfFour(k);
    CycleOfFour(k + 4);
    assert (k + 4) % 4 == k % 4;
  }

  /** Only 0, 1, 7 and 8 are ever produced, and an output of at least four values holds all four. */
  lemma SymbolSet(n: int, out: seq<string>)
    requires |out| == if n > 0 then n else 0
    requires forall k :: 0 <= k < |out| ==> out[k] == DigitString(LcgState(k + 1))
    ensures forall k :: 0 <= k < |out| ==> out[k] in {"0", "1", "7", "8"}
    ensures n >= 4 ==> forall d :: d in {"0", "1", "7", "8"} ==> d in out
  {
    forall k | 0 <= k < |out|
      ensures out[k] in {"0", "1", "7", "8"}
    {
      CycleOfFour(k + 1);
    }
    if n >= 4 {
      CycleOfFour(1);
      CycleOfFour(2);
      CycleOfFour(3);
      CycleOfFour(4);
      assert out[0] == "0" && out[1] == "7" && out[2] == "8" && out[3] == "1";
    }
  }
}
