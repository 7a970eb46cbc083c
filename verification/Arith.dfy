/** Division and remainders with a divisor that is not a constant. */
module Arith {

  lemma {:induction false} MulAtLeast(n: int, k: int)
    requires n > 0 && k >= 1
    ensures n * k >= n
  {
    if k > 1 {
      MulAtLeast(n, k - 1);
      assert n * k == n * (k - 1) + n;
    }
  }

  lemma MulSmall(n: int, k: int, d: int)
    requires n > 0 && n * k == d && -n < d < n
    ensures k == 0
  {
    if k >= 1 {
      MulAtLeast(n, k);
    } else if k <= -1 {
      MulAtLeast(n, -k);
    }
  }

  lemma ModAdd(q: nat, n: nat, c: nat)
    requires c < n
    ensures (n * q + c) % n == c && (n * q + c) / n == q
  {
    var x := n * q + c;
    var a, b := x / n, x % n;
    assert x == n * a + b;
    assert n * (a - q) == n * a - n * q;
    MulSmall(n, a - q, c - b);
  }

  lemma MulNext(n: nat, i: nat)
    ensures n * (i + 1) == n * i + n
  {
  }

  lemma ModAtMost(a: nat, n: nat)
    requires n > 0
    ensures a % n <= a
  {
  }

  lemma SameRemainder(a: nat, b: nat, n: nat)
    requires n > 0 && a < b && a % n == b % n
    ensures a + n <= b
  {
    var k := b / n - a / n;
    assert a == n * (a / n) + a % n && b == n * (b / n) + b % n;
    assert n * k == n * (b / n) - n * (a / n);
    if k < 0 {
      MulAtLeast(n, -k);
    } else if k > 0 {
      MulAtLeast(n, k);
    }
  }

  lemma MulAdd(n: int, a: int, b: int)
    ensures n * (a + b) == n * a + n * b
  {
  }

  lemma DivMonotone(a: nat, b: nat, n: nat)
    requires n > 0 && a <= b
    ensures a / n <= b / n
  {
    assert a == n * (a / n) + a % n && b == n * (b / n) + b % n;
    if b / n < a / n {
      MulAtLeast(n, a / n - b / n);
    }
  }

  lemma MulAssociates(a: nat, b: nat, c: nat)
    ensures (a * b) * c == a * (b * c)
  {
  }

  /** A remainder modulo a multiple of `n` keeps the remainder modulo `n`. */
  lemma RemainderOfRemainder(x: nat, n: nat, q: nat)
    requires n > 0 && q > 0 && n * q > 0
    ensures (x % (n * q)) % n == x % n
  {
    var m := n * q;
    var k, r := x / m, x % m;
    MulAssociates(n, q, k);
    MulAdd(n, q * k, r / n);
    assert x == m * k + r && r == n * (r / n) + r % n;
    ModAdd(q * k + r / n, n, r % n);
  }
}
