/** The simulated progress bar shared by the photo converter and the resume
    enhancer: while a request is outstanding a timer raises the shown
    percentage by a fixed step, capped at 90, and the real completion is
    what sets 100. Timer firings are counted as steps. */
module SimulatedProgress {
  const Cap := 90

  /** One timer tick: `Math.min(prev + step, 90)`. */
  function Tick(p: int, step: nat): (r: int)
    ensures r <= Cap
    ensures p + step <= Cap ==> r == p + step
    ensures p + step >= Cap ==> r == Cap
    ensures p <= Cap ==> p <= r
  {
    if p + step < Cap then p + step else Cap
  }

  /** `clearInterval` on one registered timer: the number of live timers
      drops by one, and clearing with none registered changes nothing. */
  function ClearOne(timers: nat): (r: nat)
    ensures timers > 0 ==> r + 1 == timers
    ensures timers == 0 ==> r == 0
  {
    if timers > 0 then timers - 1 else 0
  }

  /** The value shown after `k` ticks. */
  function Ticks(p: int, step: nat, k: nat): (r: int)
    ensures k > 0 ==> r <= Cap
  {
    if k == 0 then p else Tick(Ticks(p, step, k - 1), step)
  }

  /** From 0, `k` ticks show `step * k`, until the cap is reached. */
  lemma {:induction false} TicksFromZero(step: nat, k: nat)
    ensures Ticks(0, step, k) == if step * k < Cap then step * k else Cap
  {
    if k > 0 {
      TicksFromZero(step, k - 1);
      assert step * k == step * (k - 1) + step;
    }
  }

  /** Starting within the bar, the shown value never decreases and never
      passes the cap, however many ticks arrive. */
  lemma {:induction false} TicksMonotone(p: int, step: nat, j: nat, k: nat)
    requires p <= Cap && j <= k
    ensures p <= Ticks(p, step, j) <= Ticks(p, step, k) <= Cap
  {
    if j < k {
      TicksMonotone(p, step, j, k - 1);
    } else if k > 0 {
      TicksMonotone(p, step, 0, k - 1);
    }
  }

  /** Below the cap, `k` steps add `step * k`. */
  lemma {:induction false} TicksBelowCap(p: int, step: nat, k: nat)
    requires p + step * k <= Cap
    ensures Ticks(p, step, k) == p + step * k
  {
    if k > 0 {
      assert step * k == step * (k - 1) + step;
      TicksBelowCap(p, step, k - 1);
    }
  }

  /** `a` steps followed by `b` steps are `a + b` steps. */
  lemma {:induction false} TicksCompose(p: int, step: nat, a: nat, b: nat)
    ensures Ticks(Ticks(p, step, a), step, b) == Ticks(p, step, a + b)
  {
    if b > 0 {
      TicksCompose(p, step, a, b - 1);
    }
  }
}
