/** When `Solver.search` stops to report progress, look at the clock and ask
    whether it was cancelled: at the head of an iteration, after polling and
    before the count of expanded nodes is raised, when that count is 1 or the
    check counter `i` has reached the interval. */
module Checkpoints {

  /** The number of expansions between two check points (`Solver.interval`). */
  const Interval: nat := 200

  /** The condition of the check at the loop head, for `n` expansions and counter `i`. */
  predicate IsCheckPoint(n: nat, i: nat)
  {
    n == 1 || i == Interval
  }

  /** The value of the check counter `i` at the head of the iteration that starts
      after `n` expansions: each iteration that does not break resets it to 0
      at a check point, then raises it by one. */
  function Counter(n: nat): (i: nat)
  {
    if n == 0 then 0
    else (if IsCheckPoint(n - 1, Counter(n - 1)) then 0 else Counter(n - 1)) + 1
  }

  /** The check is made at the head of the iteration that starts after `n` expansions. */
  predicate Fires(n: nat)
  {
    IsCheckPoint(n, Counter(n))
  }

  /** The number of check points passed before `n` expansions. */
  function ChecksBelow(n: nat): (count: nat)
  {
    if n == 0 then 0 else ChecksBelow(n - 1) + (if Fires(n - 1) then 1 else 0)
  }

  /** The number of expansions at the `r`-th check point, counting from 0: the
      first comes after one expansion, each later one `Interval` expansions on. */
  function CheckPoint(r: nat): (point: nat)
  {
    1 + r * Interval
  }

  /** Quotient and remainder by the interval are the unique pair of their kind. */
  lemma DivMod(a: int, q: int, r: int)
    requires a == Interval * q + r && 0 <= r < Interval
    ensures a / Interval == q && a % Interval == r
  {
  }

  /** The counter stays within `0..Interval` and the check fires after exactly
      1, 1 + Interval, 1 + 2 * Interval, ... expansions; in particular not at the
      first iteration (no node expanded yet) but at the second. */
  lemma {:induction false} CounterSchedule(n: nat)
    ensures Counter(n) <= Interval
    ensures Counter(n) == if n <= 1 then n else (n - 2) % Interval + 1
    ensures Fires(n) <==> n % Interval == 1
  {
    if n == 2 {
      assert Counter(1) == 1 && IsCheckPoint(1, 1);
    } else if n > 2 {
      CounterSchedule(n - 1);
      var q, r := (n - 3) / Interval, (n - 3) % Interval;
      assert Counter(n - 1) == r + 1;
      if r == Interval - 1 {
        DivMod(n - 2, q + 1, 0);
        DivMod(n, q + 1, 2);
      } else {
        DivMod(n - 2, q, r + 1);
        if r == Interval - 2 {
          DivMod(n, q + 1, 1);
        } else if r == Interval - 3 {
          DivMod(n, q + 1, 0);
        } else {
          DivMod(n, q, r + 3);
        }
      }
    }
  }

  /** The number of check points below `n`, in closed form. */
  lemma {:induction false} ChecksBelowValue(n: nat)
    ensures ChecksBelow(n) == if n <= 1 then 0 else (n - 2) / Interval + 1
  {
    if n == 2 {
      assert ChecksBelow(1) == 0 && Fires(1);
    } else if n > 2 {
      ChecksBelowValue(n - 1);
      CounterSchedule(n - 1);
      var q, r := (n - 3) / Interval, (n - 3) % Interval;
      if r == Interval - 1 {
        DivMod(n - 1, q + 1, 1);
        DivMod(n - 2, q + 1, 0);
      } else {
        DivMod(n - 2, q, r + 1);
        if r == Interval - 2 {
          DivMod(n - 1, q + 1, 0);
        } else {
          DivMod(n - 1, q, r + 2);
        }
      }
    }
  }

  /** A check point is the next one after those below it. */
  lemma FiresAtCheckPoint(n: nat)
    requires Fires(n)
    ensures CheckPoint(ChecksBelow(n)) == n
  {
    CounterSchedule(n);
    ChecksBelowValue(n);
  }

  /** Every check point counted below `n` comes before `n`. */
  lemma CheckPointBelow(n: nat, r: nat)
    requires r < ChecksBelow(n)
    ensures CheckPoint(r) < n
  {
    ChecksBelowValue(n);
  }
}
