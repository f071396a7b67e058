/** The USB-open governor of the capture service: its backoff arithmetic and its shared record. */
module UsbGate {
  import opened Common

  const GATE_BASE: int := 30_000_000_000   // ns
  const GATE_MAX: int := 300_000_000_000
  const GATE_HEALTHY: int := 60_000_000_000

  function Pow2(k: nat): (p: nat)
    ensures p >= 1
  {
    if k == 0 then 1 else 2 * Pow2(k - 1)
  }

  /** The int64 value left in the register when the exact result is `v`. */
  function Wrap64(v: int): int {
    (v + 0x8000_0000_0000_0000) % 0x1_0000_0000_0000_0000 - 0x8000_0000_0000_0000
  }

  /** Go's `x << k` on an int64: the low 64 bits of the product, so 0 from 64 on. */
  function Shl64(x: int, k: nat): int {
    Wrap64(x * Pow2(k))
  }

  /** The penalty `fail` computes once `fails` has been incremented. */
  function Backoff(fails: int): int
    requires fails >= 1
  {
    var d := Shl64(GATE_BASE, fails - 1);
    if d <= 0 || d > GATE_MAX then GATE_MAX else d
  }

  lemma {:induction false} Pow2Add(a: nat, b: nat)
    ensures Pow2(a + b) == Pow2(a) * Pow2(b)
  {
    if a > 0 {
      Pow2Add(a - 1, b);
      assert Pow2(a + b) == 2 * (Pow2(a - 1) * Pow2(b));
    }
  }

  lemma {:induction false} Pow2Monotone(a: nat, b: nat)
    requires a <= b
    ensures Pow2(a) <= Pow2(b)
  {
    if a < b {
      Pow2Monotone(a, b - 1);
    }
  }

  lemma Pow2Values()
    ensures Pow2(3) == 8 && Pow2(4) == 16 && Pow2(28) == 0x1000_0000 && Pow2(29) == 0x2000_0000
  {
    assert Pow2(4) == 16;
    Pow2Add(4, 4);
    Pow2Add(8, 8);
    Pow2Add(16, 8);
    Pow2Add(24, 4);
    Pow2Add(28, 1);
  }

  lemma Pow2Small()
    ensures Pow2(0) == 1 && Pow2(1) == 2 && Pow2(2) == 4
  {
  }

  /** From the 29th doubling on, what is left in the register is a multiple of 2^39 ns. */
  lemma OverflowLeavesMultiple(k: nat) returns (q: int)
    requires k >= 29
    ensures Shl64(GATE_BASE, k) == 0x80_0000_0000 * q
  {
    Pow2Values();
    Pow2Add(29, k - 29);
    var v := GATE_BASE * Pow2(k);
    var c := 29_296_875 * Pow2(k - 29);
    assert v == 0x80_0000_0000 * c;
    var m := (v + 0x8000_0000_0000_0000) / 0x1_0000_0000_0000_0000;
    assert Wrap64(v) == v - m * 0x1_0000_0000_0000_0000;
    q := c - m * 0x200_0000;
  }

  /** The guard makes the wrapping shift exact: base * 2^(fails-1), capped, for every count of failures. */
  lemma BackoffExact(fails: int)
    requires fails >= 1
    ensures Backoff(fails) == Min(GATE_BASE * Pow2(fails - 1), GATE_MAX)
  {
    var k := fails - 1;
    Pow2Values();
    if k >= 29 {
      var q := OverflowLeavesMultiple(k);
      Pow2Monotone(4, k);
    } else if k >= 4 {
      Pow2Monotone(4, k);
      Pow2Monotone(k, 28);
    } else {
      Pow2Monotone(k, 3);
    }
  }

  lemma BackoffMonotone(a: int, b: int)
    requires 1 <= a <= b
    ensures GATE_BASE <= Backoff(a) <= Backoff(b) <= GATE_MAX
  {
    BackoffExact(a);
    BackoffExact(b);
    Pow2Monotone(a - 1, b - 1);
  }

  /** Without the `d <= 0` test the cap would fail: the 30th failure shifts into the sign bit. */
  lemma OverflowIsReal()
    ensures Shl64(GATE_BASE, 29) < 0
    ensures Backoff(30) == GATE_MAX
  {
    Pow2Values();
    BackoffExact(30);
    Pow2Monotone(4, 29);
  }

  /** The governor's record as a value; `full` is the cap-1 channel holding its token. */
  datatype Gate = Gate(full: bool, fails: nat, nextOK: int)

  function AfterFail(g: Gate, now: int): Gate {
    g.(fails := g.fails + 1, nextOK := now + Backoff(g.fails + 1))
  }

  function AfterOk(g: Gate, now: int): Gate {
    g.(fails := 0, nextOK := now)
  }

  /** How far ahead of the clock the backoff may point after `fails` consecutive failures. */
  function Horizon(fails: nat): int {
    if fails == 0 then 0 else Backoff(fails)
  }

  /** The shared governor. Each method is one critical section of the governor. */
  class UsbGate {
    var full: bool
    var fails: nat
    var nextOK: int

    ghost function View(): Gate
      reads this
    {
      Gate(full, fails, nextOK)
    }

    constructor ()
      ensures View() == Gate(false, 0, 0)
    {
      full, fails, nextOK := false, 0, 0;
    }

    /** The send on the channel went through: keep the token if the backoff is over, else give it back. */
    method Enter(now: int) returns (admitted: bool)
      requires !full
      modifies this
      ensures admitted <==> now >= nextOK
      ensures View() == old(View()).(full := admitted)
    {
      full := true;
      var ready := !(now < nextOK);
      if ready {
        return true;
      }
      full := false;
      return false;
    }

    method End()
      requires full
      modifies this
      ensures View() == old(View()).(full := false)
    {
      full := false;
    }

    method Ok(now: int)
      modifies this
      ensures View() == AfterOk(old(View()), now)
    {
      fails := 0;
      nextOK := now;
    }

    /** A further failure never shortens a backoff that respects the horizon, and rests at most five minutes. */
    method Fail(now: int)
      modifies this
      ensures View() == AfterFail(old(View()), now)
      ensures nextOK == now + Min(GATE_BASE * Pow2(fails - 1), GATE_MAX)
      ensures old(nextOK) <= now + Horizon(old(fails)) ==> nextOK >= old(nextOK)
    {
      ghost var f := fails;
      fails := fails + 1;
      var d := Shl64(GATE_BASE, fails - 1);
      if d <= 0 || d > GATE_MAX {
        d := GATE_MAX;
      }
      nextOK := now + d;
      BackoffExact(fails);
      if f > 0 {
        BackoffMonotone(f, fails);
      }
    }
  }
}
