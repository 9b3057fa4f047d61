/**
 * The prime-digit generator: trial-division primality and the string made of
 * the decimal expansions of 2, 3, 5, 7, 11, ... up to a target length.
 */
module Primes {
  import opened ModArith

  /** d is a positive divisor of n. */
  predicate Divides(d: int, n: int)
  {
    d > 0 && n % d == 0
  }

  predicate Odd(n: int)
  {
    n % 2 == 1
  }

  /** No d in [2, k) divides n. */
  predicate NoDivisorBelow(n: int, k: int)
    decreases k
  {
    k <= 2 || (NoDivisorBelow(n, k - 1) && !Divides(k - 1, n))
  }

  /** Primality by definition: no divisor strictly between 1 and n. */
  predicate Prime(n: int)
  {
    n >= 2 && NoDivisorBelow(n, n)
  }

  lemma {:induction false} NoDivisorBelowMeans(n: int, k: int)
    ensures NoDivisorBelow(n, k) <==> forall d :: 2 <= d < k ==> !Divides(d, n)
    decreases k
  {
    if k > 2 {
      NoDivisorBelowMeans(n, k - 1);
    }
  }

  /** The definition, unfolded: n >= 2 and no d in [2, n) divides n. */
  lemma PrimeMeans(n: int)
    ensures Prime(n) <==> n >= 2 && forall d :: 2 <= d < n ==> !Divides(d, n)
  {
    NoDivisorBelowMeans(n, n);
  }

  /** `math.isqrt(n)`. */
  function Isqrt(n: nat): (r: nat)
    ensures r * r <= n < (r + 1) * (r + 1)
  {
    if n == 0 then 0
    else
      var r := Isqrt(n - 1);
      if (r + 1) * (r + 1) <= n then r + 1 else r
  }

  /** `is_prime(n)`: reject n < 2, settle even n, then try the odd factors 3, 5, ... up to isqrt(n). */
  method IsPrime(n: int) returns (b: bool)
    ensures b == Prime(n)
  {
    if n < 2 {
      return false;
    }
    if n % 2 == 0 {
      EvenPrime(n);
      return n == 2;
    }
    var r := Isqrt(n);
    b := OddTrial(n, r);
    OddTrialEquivalence(n);
  }

  /** The trial-division loop of `is_prime`: whether no odd f in [3, r] divides n. */
  method OddTrial(n: int, r: nat) returns (b: bool)
    ensures b <==> forall f :: 3 <= f <= r && Odd(f) ==> !Divides(f, n)
  {
    var f := 3;
    while f <= r
      invariant 3 <= f && Odd(f)
      invariant forall d :: 3 <= d < f && Odd(d) ==> !Divides(d, n)
    {
      if Divides(f, n) {
        return false;
      }
      f := f + 2;
    }
    return true;
  }

  lemma EvenPrime(n: int)
    requires n % 2 == 0
    ensures Prime(n) <==> n == 2
  {
    PrimeMeans(n);
    if n > 2 {
      assert Divides(2, n);
    }
  }

  lemma FactorRefutes(n: int, f: int, r: nat)
    requires 3 <= f <= r && r * r <= n && Divides(f, n)
    ensures !Prime(n)
  {
    PrimeMeans(n);
    assert f * f <= r * r;
    assert f < f * f;
  }

  /** A factor of an odd number is odd. */
  lemma OddFactor(n: int, d: int, e: int)
    requires n == d * e && Odd(n)
    ensures Odd(d)
  {
    if d % 2 == 0 {
      var h := d / 2;
      assert d == 2 * h;
      assert n == (h * e) * 2;
      ModUnique(n, 2, h * e, 0);
    }
  }

  /** No odd factor up to isqrt(n) leaves an odd n >= 3 prime. */
  lemma OddTrialComplete(n: int, r: nat, f: int)
    requires n >= 3 && Odd(n)
    requires r * r <= n < (r + 1) * (r + 1)
    requires f > r
    requires forall d :: 3 <= d < f && Odd(d) ==> !Divides(d, n)
    ensures Prime(n)
  {
    PrimeMeans(n);
    forall d | 2 <= d < n
      ensures !Divides(d, n)
    {
      if Divides(d, n) {
        var g := SmallFactor(n, d, r);
      }
    }
  }

  /** A proper divisor of an odd n yields an odd divisor in [3, isqrt(n)]. */
  lemma SmallFactor(n: int, d: int, r: nat) returns (g: int)
    requires n >= 3 && Odd(n) && 2 <= d < n && Divides(d, n)
    requires r * r <= n < (r + 1) * (r + 1)
    ensures 3 <= g <= r && Odd(g) && Divides(g, n)
  {
    var e := CoFactor(n, d);
    OddFactor(n, d, e);
    OddFactor(n, e, d);
    if d <= r {
      g := d;
    } else {
      if e > r {
        ProductBound(d, e, r + 1);
      }
      g := e;
    }
  }

  lemma CoFactor(n: int, d: int) returns (e: int)
    requires 2 <= d < n && Divides(d, n)
    ensures n == d * e && e >= 2 && Divides(e, n)
  {
    e := n / d;
    assert n == d * e;
    ModUnique(n, e, d, 0);
  }

  lemma ProductBound(a: int, b: int, c: nat)
    requires a >= c && b >= c
    ensures a * b >= c * c
  {
    assert a * b >= c * b;
    assert c * b >= c * c;
  }

  /** For odd n >= 3, `is_prime`'s odd trial division up to isqrt(n) decides primality. */
  lemma OddTrialEquivalence(n: int)
    requires n >= 3 && Odd(n)
    ensures Prime(n) <==> forall f :: 3 <= f <= Isqrt(n) && Odd(f) ==> !Divides(f, n)
  {
    var r := Isqrt(n);
    if forall f :: 3 <= f <= r && Odd(f) ==> !Divides(f, n) {
      OddTrialComplete(n, r, r + 1);
    } else {
      var f :| 3 <= f <= r && Odd(f) && Divides(f, n);
      FactorRefutes(n, f, r);
    }
  }

  // ---------- infinitely many primes ----------

  function Fact(n: nat): (f: nat)
    ensures f >= 1
  {
    if n == 0 then 1 else n * Fact(n - 1)
  }

  lemma {:induction false} FactDivisible(n: nat, d: int)
    requires 1 <= d <= n
    ensures Divides(d, Fact(n))
  {
    if d == n {
      ModUnique(Fact(n), d, Fact(n - 1), 0);
    } else {
      FactDivisible(n - 1, d);
      var k := Fact(n - 1) / d;
      assert Fact(n - 1) == k * d;
      assert Fact(n) == (n * k) * d;
      ModUnique(Fact(n), d, n * k, 0);
    }
  }

  lemma DividesTrans(a: int, b: int, c: int)
    requires a > 0 && b > 0 && Divides(a, b) && Divides(b, c)
    ensures Divides(a, c)
  {
    var j := b / a;
    var k := c / b;
    assert b == j * a;
    assert c == k * b;
    assert c == (k * j) * a;
    ModUnique(c, a, k * j, 0);
  }

  /** The least divisor of m that is at least d, when none in [2, d) divides m. */
  function LeastDivisorFrom(m: int, d: int): (q: int)
    requires 2 <= d <= m
    requires forall e :: 2 <= e < d ==> !Divides(e, m)
    ensures d <= q <= m && Divides(q, m)
    ensures forall e :: 2 <= e < q ==> !Divides(e, m)
    decreases m - d
  {
    if Divides(d, m) then d else LeastDivisorFrom(m, d + 1)
  }

  /** A prime larger than n: the least divisor of n! + 1. */
  ghost function PrimeAbove(n: nat): int
  {
    LeastDivisorFrom(Fact(n) + 1, 2)
  }

  /** There is a prime above every n. */
  lemma PrimeAfter(n: nat) returns (q: nat)
    ensures Prime(q) && q > n
  {
    PrimeAboveFacts(n);
    q := PrimeAbove(n);
  }

  lemma PrimeAboveFacts(n: nat)
    ensures Prime(PrimeAbove(n)) && PrimeAbove(n) > n
  {
    var m := Fact(n) + 1;
    var q := PrimeAbove(n);
    PrimeMeans(q);
    forall e | 2 <= e < q
      ensures !Divides(e, q)
    {
      if Divides(e, q) {
        DividesTrans(e, q, m);
      }
    }
    if q <= n {
      FactDivisible(n, q);
      var a := Fact(n) / q;
      assert Fact(n) == a * q;
      ModUnique(m, q, a, 1);
    }
  }

  // ---------- decimal strings ----------

  function DigitChar(d: int): char
    requires 0 <= d < 10
  {
    ('0' as int + d) as char
  }

  function DigitValue(c: char): nat
  {
    if '0' <= c <= '9' then (c as int) - ('0' as int) else 0
  }

  /** `str(n)` for a natural number. */
  function DecimalString(n: nat): (s: string)
    ensures |s| >= 1
    ensures forall i :: 0 <= i < |s| ==> '0' <= s[i] <= '9'
    ensures n > 0 ==> s[0] != '0'
  {
    if n < 10 then [DigitChar(n)] else DecimalString(n / 10) + [DigitChar(n % 10)]
  }

  /** The number a string of decimal digits denotes. */
  function DecimalValue(s: string): nat
  {
    if |s| == 0 then 0 else DecimalValue(s[..|s| - 1]) * 10 + DigitValue(s[|s| - 1])
  }

  /** `str` is read back by decimal evaluation. */
  lemma {:induction false} DecimalRoundTrip(n: nat)
    ensures DecimalValue(DecimalString(n)) == n
  {
    if n >= 10 {
      DecimalRoundTrip(n / 10);
      var s := DecimalString(n);
      assert s[..|s| - 1] == DecimalString(n / 10);
      assert DigitValue(s[|s| - 1]) == n % 10;
      assert n == (n / 10) * 10 + n % 10;
    }
  }

  // ---------- gen_primes_digits ----------

  /** The primes below p, increasing. */
  function PrimesBelow(p: nat): seq<nat>
  {
    if p == 0 then [] else PrimesBelow(p - 1) + (if Prime(p - 1) then [p - 1] else [])
  }

  /** The list holds exactly the primes below p, in increasing order. */
  lemma {:induction false} PrimesBelowFacts(p: nat)
    ensures forall i :: 0 <= i < |PrimesBelow(p)| ==> Prime(PrimesBelow(p)[i]) && PrimesBelow(p)[i] < p
    ensures forall i, j :: 0 <= i < j < |PrimesBelow(p)| ==> PrimesBelow(p)[i] < PrimesBelow(p)[j]
    ensures forall q :: 0 <= q < p && Prime(q) ==> q in PrimesBelow(p)
  {
    if p > 0 {
      PrimesBelowFacts(p - 1);
    }
  }

  function Join(ss: seq<string>): string
  {
    if |ss| == 0 then "" else Join(ss[..|ss| - 1]) + ss[|ss| - 1]
  }

  /** The decimal strings of a sequence of numbers. */
  function Decimals(ps: seq<nat>): (ss: seq<string>)
    ensures |ss| == |ps|
  {
    if |ps| == 0 then [] else Decimals(ps[..|ps| - 1]) + [DecimalString(ps[|ps| - 1])]
  }

  /** The digits of the primes below p, concatenated. */
  function PrimeDigits(p: nat): string
  {
    Join(Decimals(PrimesBelow(p)))
  }

  /** `gen_primes_digits(target)`: the concatenated primes below `bound`, which is the
      least prime run whose digits reach `target`; "" when target <= 0. */
  method GenPrimesDigits(target: int) returns (out: string, ghost bound: nat)
    ensures out == PrimeDigits(bound)
    ensures |out| >= target
    ensures target <= 0 ==> out == ""
    ensures target > 0 ==> |PrimesBelow(bound)| > 0 && |Join(Decimals(PrimesBelow(bound))[..|PrimesBelow(bound)| - 1])| < target
  {
    var buf: seq<string> := [];
    var total := 0;
    var p := 2;
    ghost var q := 2;
    assert PrimesBelow(1) == [] && PrimesBelow(2) == [];
    assert Join(buf) == "";
    while total < target
      invariant 2 <= p <= q && Prime(q)
      invariant buf == Decimals(PrimesBelow(p)) && total == |Join(buf)|
      invariant |buf| > 0 ==> |Join(buf[..|buf| - 1])| < target
      decreases target - total, q - p
    {
      buf, total, p, q := GenStep(buf, total, p, q, target);
    }
    out, bound := Join(buf), p;
  }

  /** One iteration of the loop of `gen_primes_digits`, with `q` the next prime still ahead. */
  method GenStep(buf: seq<string>, total: nat, p: nat, ghost q: nat, target: int)
    returns (buf': seq<string>, total': nat, p': nat, ghost q': nat)
    requires total < target
    requires 2 <= p <= q && Prime(q)
    requires buf == Decimals(PrimesBelow(p)) && total == |Join(buf)|
    ensures 2 <= p' <= q' && Prime(q') && p' == p + 1
    ensures buf' == Decimals(PrimesBelow(p')) && total' == |Join(buf')|
    ensures |buf'| > 0 ==> |Join(buf'[..|buf'| - 1])| < target
    ensures total' > total || (total' == total && q' - p' < q - p)
  {
    var grew;
    buf', total', grew := AppendIfPrime(buf, total, p, q);
    q' := q;
    if grew {
      q' := PrimeAfter(p);
    }
    p' := p + 1;
  }

  /** One pass of the loop of `gen_primes_digits`: append `str(p)` when p is prime. */
  method AppendIfPrime(buf: seq<string>, total: nat, p: nat, ghost q: nat) returns (buf': seq<string>, total': nat, grew: bool)
    requires buf == Decimals(PrimesBelow(p)) && total == |Join(buf)|
    requires p <= q && Prime(q)
    ensures buf' == Decimals(PrimesBelow(p + 1)) && total' == |Join(buf')|
    ensures !grew ==> p < q
    ensures grew ==> total' > total && |buf'| > 0 && buf'[..|buf'| - 1] == buf
    ensures !grew ==> buf' == buf && total' == total
  {
    grew := IsPrime(p);
    if grew {
      var s := DecimalString(p);
      AppendStep(buf, p);
      buf' := buf + [s];
      total' := total + |s|;
    } else {
      assert PrimesBelow(p + 1) == PrimesBelow(p);
      buf', total' := buf, total;
    }
  }

  /** Appending the string of the prime p moves the buffer from the primes below p to
      those below p + 1. */
  lemma AppendStep(buf: seq<string>, p: nat)
    requires buf == Decimals(PrimesBelow(p)) && Prime(p)
    ensures buf + [DecimalString(p)] == Decimals(PrimesBelow(p + 1))
    ensures Join(buf + [DecimalString(p)]) == Join(buf) + DecimalString(p)
    ensures (buf + [DecimalString(p)])[..|buf|] == buf
  {
    assert PrimesBelow(p + 1) == PrimesBelow(p) + [p];
    assert (buf + [DecimalString(p)])[..|buf|] == buf;
  }

  /** Every character of the generated string is a decimal digit. */
  lemma {:induction false} JoinOfDecimals(ps: seq<nat>)
    ensures forall i :: 0 <= i < |Join(Decimals(ps))| ==> '0' <= Join(Decimals(ps))[i] <= '9'
    ensures |Join(Decimals(ps))| >= |ps|
  {
    if |ps| > 0 {
      var init := ps[..|ps| - 1];
      JoinOfDecimals(init);
      assert Decimals(ps)[..|ps| - 1] == Decimals(init);
    }
  }
}
