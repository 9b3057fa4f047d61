/**
 * Facts about the non-negative remainder `%` that the probes rely on; each is
 * reduced to the uniqueness of quotient and remainder.
 */
module ModArith {

  lemma ModUnique(x: int, m: int, q: int, r: int)
    requires m > 0 && x == q * m + r && 0 <= r < m
    ensures x % m == r
  {
    var q', r' := x / m, x % m;
    assert x == q' * m + r';
    var d := q - q';
    assert d * m == r' - r;
  }

  lemma AddMultiple(a: int, b: int, m: int)
    requires m > 0
    ensures (a + b * m) % m == a % m
  {
    var q := a / m;
    assert a == q * m + a % m;
    assert a + b * m == (q + b) * m + a % m;
    ModUnique(a + b * m, m, q + b, a % m);
  }

  lemma ModOfMod(x: nat, r: int, m: int)
    requires m > 0 && r > 0 && r % m == 0
    ensures (x % r) % m == x % m
  {
    var q := x / r;
    var c := r / m;
    assert r == c * m;
    assert x == x % r + q * r;
    assert q * r == (q * c) * m;
    AddMultiple(x % r, q * c, m);
  }

  lemma ModSum(i: int, j: int, m: int)
    requires m > 0
    ensures (i % m + j % m) % m == (i + j) % m
  {
    var a := i / m;
    var b := j / m;
    assert i + j == (i % m + j % m) + (a + b) * m;
    AddMultiple(i % m + j % m, a + b, m);
  }
}
