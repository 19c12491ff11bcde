/** Round-robin assignment over a wrapping 32-bit counter: `m_next_loop_index++ % m_loop_num`. */
module RoundRobin {

  const TWO32: nat := 0x1_0000_0000

  /** The counter of a TcpServer or TcpClient, and how often each loop has been picked. */
  class Assigner {
    var next: nat          // m_next_loop_index
    const loops: nat       // m_loop_num
    ghost var made: nat    // assignments so far

    ghost predicate Valid()
      reads this
    {
      0 < loops < TWO32 && next == made % TWO32
    }

    constructor (loops: nat)
      requires 0 < loops < TWO32
      ensures Valid() && made == 0 && this.loops == loops
    {
      this.loops := loops;
      next, made := 0, 0;
    }

    /** `GetEventLoop(m_next_loop_index++ % m_loop_num)`. */
    method Pick() returns (loop: nat)
      requires Valid()
      modifies this
      ensures Valid() && made == old(made) + 1
      ensures loop < loops && loop == PickOf(old(made), loops)
    {
      loop := next % loops;
      next := (next + 1) % TWO32;
      made := made + 1;
    }
  }

  /** The loop picked by assignment number k, counted from 0. */
  function PickOf(k: nat, loops: nat): nat
    requires loops > 0
  {
    k % TWO32 % loops
  }

  /** The loops take turns: the first assignment goes to loop 0, each further one to the loop behind the one
      before, and only where the counter wraps it starts again with loop 0. */
  lemma PicksInTurn(k: nat, loops: nat)
    requires 0 < loops < TWO32
    ensures PickOf(0, loops) == 0
    ensures PickOf(k + 1, loops)
         == if (k + 1) % TWO32 == 0 || PickOf(k, loops) == loops - 1 then 0 else PickOf(k, loops) + 1
  {
    var at := k % TWO32;
    DivStep(k, TWO32);
    if (k + 1) % TWO32 != 0 {
      assert (k + 1) % TWO32 == at + 1;
      DivStep(at, loops);
    } else {
      assert 0 % loops == 0;
    }
  }

  /** How many of the first k assignments went to loop i. */
  function Load(k: nat, loops: nat, i: nat): nat
    requires loops > 0
  {
    if k == 0 then 0 else Load(k - 1, loops, i) + if PickOf(k - 1, loops) == i then 1 else 0
  }

  /** How many of the numbers below m leave remainder i. */
  function Below(m: nat, loops: nat, i: nat): nat
    requires loops > 0
  {
    if m == 0 then 0 else Below(m - 1, loops, i) + if (m - 1) % loops == i then 1 else 0
  }

  lemma {:induction false} BelowExact(m: nat, loops: nat, i: nat)
    requires i < loops
    ensures Below(m, loops, i) == m / loops + if i < m % loops then 1 else 0
  {
    if m > 0 {
      BelowExact(m - 1, loops, i);
      DivStep(m - 1, loops);
    } else {
      assert 0 / loops == 0 && 0 % loops == 0;
    }
  }

  lemma DivStep(a: nat, n: nat)
    requires n > 0
    ensures if a % n == n - 1 then (a + 1) / n == a / n + 1 && (a + 1) % n == 0
            else (a + 1) / n == a / n && (a + 1) % n == a % n + 1
  {
    var q, r := a / n, a % n;
    assert a == q * n + r;
    if r == n - 1 {
      assert a + 1 == (q + 1) * n + 0;
      DivUnique(a + 1, n, q + 1, 0);
    } else {
      DivUnique(a + 1, n, q, r + 1);
    }
  }

  lemma DivUnique(a: nat, n: nat, q: nat, r: nat)
    requires n > 0 && r < n && a == q * n + r
    ensures a / n == q && a % n == r
  {
    assert a == (a / n) * n + a % n;
    assert (a / n - q) * n == r - a % n;
    Multiple(a / n - q, n);
  }

  lemma Multiple(d: int, n: nat)
    ensures d > 0 ==> d * n >= n
    ensures d < 0 ==> d * n <= -(n as int)
  {
    if d > 0 {
      assert (d - 1) * n >= 0;
    } else if d < 0 {
      assert (-d - 1) * n >= 0;
    }
  }

  /** The load after q full turns of the counter and r more assignments. */
  lemma {:induction false} LoadByTurns(q: nat, r: nat, loops: nat, i: nat)
    requires loops > 0 && r <= TWO32
    ensures Load(q * TWO32 + r, loops, i) == q * Below(TWO32, loops, i) + Below(r, loops, i)
    decreases q, r
  {
    if r > 0 {
      LoadByTurns(q, r - 1, loops, i);
      DivUnique(q * TWO32 + r - 1, TWO32, q, r - 1);
    } else if q > 0 {
      LoadByTurns(q - 1, TWO32, loops, i);
      assert (q - 1) * TWO32 + TWO32 == q * TWO32;
      assert (q - 1) * Below(TWO32, loops, i) + Below(TWO32, loops, i) == q * Below(TWO32, loops, i);
    }
  }

  function Wraps(k: nat): nat {
    k / TWO32
  }

  /** Balance: after any number of assignments the loads of two loops differ by at most one plus the
      number of times the counter has wrapped. */
  lemma Balanced(k: nat, loops: nat, i: nat, j: nat)
    requires loops > 0 && i < loops && j < loops
    ensures Load(k, loops, i) <= Load(k, loops, j) + 1 + Wraps(k)
  {
    var q, r := k / TWO32, k % TWO32;
    LoadByTurns(q, r, loops, i);
    LoadByTurns(q, r, loops, j);
    BelowExact(TWO32, loops, i);
    BelowExact(TWO32, loops, j);
    BelowExact(r, loops, i);
    BelowExact(r, loops, j);
    Scale(q, Below(TWO32, loops, i), Below(TWO32, loops, j));
  }

  lemma {:induction false} Scale(q: nat, a: nat, b: nat)
    requires a <= b + 1
    ensures q * a <= q * b + q
  {
    if q > 0 {
      Scale(q - 1, a, b);
      assert (q - 1) * a == q * a - a && (q - 1) * b == q * b - b;
    }
  }

  /** The balance stays within one forever if and only if the number of loops divides 2^32; the default
      of four loops does. */
  lemma AlwaysBalanced(loops: nat)
    requires 0 < loops < TWO32
    ensures (forall k: nat, i: nat, j: nat | i < loops && j < loops ::
               Load(k, loops, i) <= Load(k, loops, j) + 1)
        <==> TWO32 % loops == 0
    ensures TWO32 % 4 == 0
  {
    if TWO32 % loops == 0 {
      forall k: nat, i: nat, j: nat | i < loops && j < loops
        ensures Load(k, loops, i) <= Load(k, loops, j) + 1
      {
        var q, r := k / TWO32, k % TWO32;
        LoadByTurns(q, r, loops, i);
        LoadByTurns(q, r, loops, j);
        BelowExact(TWO32, loops, i);
        BelowExact(TWO32, loops, j);
        BelowExact(r, loops, i);
        BelowExact(r, loops, j);
        assert Below(TWO32, loops, i) == Below(TWO32, loops, j);
      }
    } else {
      Unbalanced(loops);
    }
  }

  /** Otherwise two full turns put loop 0 two ahead of the last loop. */
  lemma Unbalanced(loops: nat)
    requires 0 < loops < TWO32 && TWO32 % loops != 0
    ensures Load(2 * TWO32 + 0, loops, 0) == Load(2 * TWO32 + 0, loops, loops - 1) + 2
  {
    LoadByTurns(2, 0, loops, 0);
    LoadByTurns(2, 0, loops, loops - 1);
    BelowExact(TWO32, loops, 0);
    BelowExact(TWO32, loops, loops - 1);
  }
}
