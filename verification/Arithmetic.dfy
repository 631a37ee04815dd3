/** Counting, and division and remainder by a positive number. */
module Arithmetic {

  function One(b: bool): nat {
    if b then 1 else 0
  }

  lemma {:induction false} DivStep(k: nat, n: nat)
    requires n > 0
    ensures (k + 1) / n == k / n + if (k + 1) % n == 0 then 1 else 0
  {
    var q, r := k / n, k % n;
    assert k == q * n + r;
    if r + 1 == n {
      assert k + 1 == (q + 1) * n;
      DivUnique(k + 1, n, q + 1, 0);
    } else {
      DivUnique(k + 1, n, q, r + 1);
    }
  }

  lemma {:induction false} DivUnique(x: nat, n: nat, q: nat, r: nat)
    requires n > 0 && x == q * n + r && r < n
    ensures x / n == q && x % n == r
  {
    var q', r' := x / n, x % n;
    assert (q' - q) * n == r - r';
    if q' > q {
      MultipleGrows(q' - q, n);
      assert false;
    } else if q' < q {
      MultipleGrows(q - q', n);
      assert false;
    }
  }

  lemma {:induction false} MultipleGrows(d: int, n: int)
    requires d >= 1 && n > 0
    ensures d * n >= n
  {
    assert (d - 1) * n >= 0;
  }

  lemma {:induction false} NextMultiple(c: nat, n: nat)
    requires n > 0
    ensures 1 <= n - c % n <= n && (c + (n - c % n)) % n == 0
  {
    var q := c / n;
    assert c == q * n + c % n;
    assert q * n + n == (q + 1) * n;
    DivUnique(c + (n - c % n), n, q + 1, 0);
  }
}
