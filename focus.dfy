/** The focus arithmetic of `change_add_focus` and `change_search_focus`
    (src/handler.rs): the focus enum's integer value is stepped with Rust's
    signed `%`, a negative result is replaced by the literal 8, and the result
    is converted back with `from_int`, which fails for an integer that names
    no variant. Here the enum has `n` variants numbered `0 .. n-1`. */
module FocusCycle {
  import opened Types

  /** Rust's `/` on signed integers: the quotient is rounded toward zero. */
  function TruncDiv(a: int, n: int): int
    requires n > 0
  {
    if a >= 0 then a / n else -((-a) / n)
  }

  /** Rust's `%` on signed integers: the remainder takes the sign of the dividend. */
  function TruncRem(a: int, n: int): (r: int)
    requires n > 0
    ensures a >= 0 ==> 0 <= r < n
    ensures a < 0 ==> -n < r <= 0
  {
    if a >= 0 then a % n else -((-a) % n)
  }

  /** The quotient rounded toward zero and the remainder recompose the
      dividend, which together with the sign and bound of `TruncRem` makes
      it Rust's `%`. */
  lemma TruncDivRem(a: int, n: int)
    requires n > 0
    ensures a == n * TruncDiv(a, n) + TruncRem(a, n)
  {
    if a < 0 {
      assert -a == n * ((-a) / n) + (-a) % n;
      assert n * (-((-a) / n)) == -(n * ((-a) / n));
    }
  }

  /** The integer `cycle` that the source computes before `from_int`. */
  function RawCycle(k: int, n: int, forward: bool): int
    requires n > 0
  {
    if forward then TruncRem(k + 1, n)
    else
      var c := TruncRem(k - 1, n);
      if c < 0 then 8 else c
  }

  /** One Tab (`forward`) or BackTab step over an enum of `n` variants, or
      `None` when `from_int` finds no variant for the computed integer. */
  function Cycle(k: int, n: int, forward: bool): (r: Option<nat>)
    requires n > 0
    ensures r.Some? ==> r.value < n
    ensures 0 <= k < n && forward ==> r == Some(if k == n - 1 then 0 else k + 1)
    ensures 0 < k < n && !forward ==> r == Some(k - 1)
    ensures k == 0 && !forward ==> r == (if n == 1 then Some(0) else if n > 8 then Some(8) else None)
  {
    RawCycleValues(k, n, forward);
    var c := RawCycle(k, n, forward);
    if 0 <= c < n then Some(c) else None
  }

  lemma RawCycleValues(k: int, n: int, forward: bool)
    requires n > 0
    ensures 0 <= k < n && forward ==> RawCycle(k, n, forward) == if k == n - 1 then 0 else k + 1
    ensures 0 < k < n && !forward ==> RawCycle(k, n, forward) == k - 1
    ensures k == 0 && !forward ==> RawCycle(k, n, forward) == if n == 1 then 0 else 8
  {
    if 0 <= k < n && forward {
      if k == n - 1 {
        assert (k + 1) % n == 0;
      } else {
        assert (k + 1) % n == k + 1;
      }
    } else if 0 < k < n && !forward {
      assert (k - 1) % n == k - 1;
    } else if k == 0 && !forward {
      assert n > 1 ==> 1 % n == 1;
    }
  }

  /** The wrap-around `(k + 1) mod n` and `(k - 1 + n) mod n` of a cyclic focus
      with `n` stops, the behaviour the literal 8 stands for. */
  function Wrap(k: int, n: int, forward: bool): (r: int)
    requires n > 0
    ensures 0 <= r < n
  {
    if forward then (k + 1) % n else (k - 1 + n) % n
  }

  /** With nine variants, every step lands on a variant, and the step is the
      cyclic wrap-around in both directions. */
  lemma NineSlotsWrap(k: int, forward: bool)
    requires 0 <= k < 9
    ensures Cycle(k, 9, forward) == Some(Wrap(k, 9, forward))
  {
  }

  /** With fewer than nine variants (but more than one), BackTab on the first
      slot computes 8, which names no variant, so `from_int` fails. */
  lemma BackFromFirstFails(n: int)
    requires 1 < n < 9
    ensures Cycle(0, n, false) == None
  {
  }

  /** Tab then BackTab, and BackTab then Tab, return to the starting slot. */
  lemma {:induction false} ForwardBackInverse(k: int)
    requires 0 <= k < 9
    ensures Cycle(k, 9, true).Some? && Cycle(Cycle(k, 9, true).value, 9, false) == Some(k)
    ensures Cycle(k, 9, false).Some? && Cycle(Cycle(k, 9, false).value, 9, true) == Some(k)
  {
  }

  /** `steps` Tab presses from slot `k` over `n` slots; `None` once a step fails. */
  function Forward(k: nat, n: int, steps: nat): Option<nat>
    requires n > 0
    decreases steps
  {
    if steps == 0 then Some(k)
    else
      match Cycle(k, n, true)
      case None => None
      case Some(c) => Forward(c, n, steps - 1)
  }

  /** From slot `k`, the first `n - 1 - k` Tab presses visit the following slots in order. */
  lemma {:induction false} ForwardWithoutWrap(k: nat, n: int, steps: nat)
    requires 0 < n && k + steps < n
    ensures Forward(k, n, steps) == Some(k + steps)
    decreases steps
  {
    if steps > 0 {
      ForwardWithoutWrap(k + 1, n, steps - 1);
    }
  }

  lemma {:induction false} ForwardAdd(k: nat, n: int, a: nat, b: nat)
    requires 0 < n && k < n
    requires Forward(k, n, a).Some?
    ensures Forward(k, n, a + b) == Forward(Forward(k, n, a).value, n, b)
    decreases a
  {
    if a > 0 {
      var c := Cycle(k, n, true).value;
      ForwardAdd(c, n, a - 1, b);
    }
  }

  /** Pressing Tab `n` times over `n` slots returns to the starting slot. */
  lemma {:induction false} ForwardFullCircle(k: nat, n: int)
    requires 0 <= k < n
    ensures Forward(k, n, n) == Some(k)
  {
    ForwardWithoutWrap(k, n, n - 1 - k);
    ForwardAdd(k, n, n - 1 - k, 1 + k);
    assert Forward(n - 1, n, 1 + k) == Forward(0, n, k);
    ForwardWithoutWrap(0, n, k);
  }
}
