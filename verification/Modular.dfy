/** The few facts about remainders that bin indices need. */
module Modular {
  lemma Fundamental(x: int, n: nat)
    requires n > 0
    ensures x == n * (x / n) + x % n
  {
  }

  lemma Product(n: int, z: int)
    requires n >= 0
    ensures z >= 1 ==> n * z >= n
    ensures z <= -1 ==> n * z <= -n
  {
    if z >= 1 {
      assert n * z == n + n * (z - 1) && n * (z - 1) >= 0;
    } else if z <= -1 {
      assert n * z == -n + n * (z + 1) && n * (z + 1) <= 0;
    }
  }

  /** A remainder is determined by being one. */
  lemma ModUnique(a: int, q: int, r: int, n: nat)
    requires 0 <= r < n && a == q * n + r
    ensures a % n == r
  {
    Fundamental(a, n);
    var z := a / n - q;
    assert n * z == r - a % n by {
      assert n * z == n * (a / n) - n * q;
    }
    Product(n, z);
  }

  lemma ModSmall(r: int, n: nat)
    requires 0 <= r < n
    ensures r % n == r
  {
    ModUnique(r, 0, r, n);
  }

  lemma ModTurn(a: int, n: nat)
    requires n > 0
    ensures (a + n) % n == a % n
  {
    Fundamental(a, n);
    assert (a / n + 1) * n == n * (a / n) + n;
    ModUnique(a + n, a / n + 1, a % n, n);
  }

  lemma ModDistinct(a: int, b: int, n: nat)
    requires a < b < a + n
    ensures a % n != b % n
  {
    Fundamental(a, n);
    Fundamental(b, n);
    if a % n == b % n {
      var z := b / n - a / n;
      assert n * z == b - a by {
        assert n * z == n * (b / n) - n * (a / n);
      }
      Product(n, z);
      assert false;
    }
  }
}
