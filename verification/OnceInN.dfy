/** The scheduler that goes back to the completion port once in N starts and otherwise
    continues inline. The counter is a 32-bit unsigned that wraps around. */
module OnceInN {

  import opened Arithmetic

  const WRAP: nat := 0x1_0000_0000

  type Counter = c: nat | c < WRAP

  function Advance(c: Counter): Counter {
    if c + 1 == WRAP then 0 else c + 1
  }

  /** The start that moves the counter to `c` selects the completion port. */
  predicate SelectsPort(c: Counter, n: nat)
    requires n > 0
  {
    c % n == 0
  }

  /** The counter after `k` starts. */
  function AfterStarts(c: Counter, k: nat): Counter {
    if k == 0 then c else Advance(AfterStarts(c, k - 1))
  }

  lemma {:induction false} AfterStartsIsModular(c: Counter, k: nat)
    ensures AfterStarts(c, k) == (c + k) % 0x1_0000_0000
  {
    if k > 0 {
      AfterStartsIsModular(c, k - 1);
    }
  }

  /** How many of the first `k` starts select the port. */
  function PortStarts(c: Counter, k: nat, n: nat): nat
    requires n > 0
  {
    if k == 0 then 0 else PortStarts(c, k - 1, n) + if SelectsPort(AfterStarts(c, k), n) then 1 else 0
  }

  /** Exact rate: from zero and before the counter wraps, k starts go to the port k / n times. */
  lemma {:induction false} PortShare(k: nat, n: nat)
    requires n > 0 && k < 0x1_0000_0000
    ensures PortStarts(0, k, n) == k / n
  {
    if k == 0 {
      DivUnique(0, n, 0, 0);
    } else {
      PortShare(k - 1, n);
      AfterStartsIsModular(0, k);
      DivStep(k - 1, n);
    }
  }

  /** Fairness: any n consecutive starts include one that goes to the port, wrap-around or not. */
  lemma {:induction false} PortWithinN(c: Counter, n: nat) returns (k: nat)
    requires 0 < n < 0x1_0000_0000
    ensures 1 <= k <= n && SelectsPort(AfterStarts(c, k), n)
  {
    k := n - c % n;
    if c + k < WRAP {
      NextMultiple(c, n);
    } else {
      k := WRAP - c;
      DivUnique(0, n, 0, 0);
    }
    AfterStartsIsModular(c, k);
  }
}
