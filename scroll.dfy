/**
 * The counting part of `autoScroll` in clone.js: the document height is read once,
 * and every timer tick scrolls by `step` and adds `step` to `total`, stopping at
 * the first tick after which `total >= height`. The timer itself is not modelled.
 */
module Scroll {

  /** The default step of `autoScroll`; its only call passes no step. */
  const DefaultStep: nat := 500

  /** `height / step` rounded up. */
  function CeilDiv(height: nat, step: nat): nat
    requires step > 0
  {
    (height + step - 1) / step
  }

  /** The number of ticks the loop should run: `max(1, ceil(height / step))`. */
  function ExpectedTicks(height: nat, step: nat): nat
    requires step > 0
  {
    if CeilDiv(height, step) == 0 then 1 else CeilDiv(height, step)
  }

  /** The first tick count whose total reaches the height is `max(1, ceil(height / step))`. */
  lemma FirstReachingTick(height: nat, step: nat, ticks: nat)
    requires step > 0 && ticks >= 1
    requires ticks * step >= height
    requires ticks == 1 || (ticks - 1) * step < height
    ensures ticks == ExpectedTicks(height, step)
  {
    var q := CeilDiv(height, step);
    CeilDivBounds(height, step);
    if ticks < q {
      MulMonotone(ticks, q - 1, step);
    }
    if ticks > 1 && ticks - 1 >= q {
      MulMonotone(q, ticks - 1, step);
    }
  }

  /** `ceil(height / step)` steps reach the height and one step fewer does not. */
  lemma CeilDivBounds(height: nat, step: nat)
    requires step > 0
    ensures CeilDiv(height, step) * step >= height
    ensures (CeilDiv(height, step) - 1) * step < height
  {
    var n := height + step - 1;
    var q, r := n / step, n % step;
    assert n == q * step + r && 0 <= r < step;
    assert (q - 1) * step == q * step - step;
  }

  lemma MulMonotone(a: int, b: int, c: nat)
    requires a <= b
    ensures a * c <= b * c
  {
    assert b * c - a * c == (b - a) * c;
  }

  /** With the default step, a page up to 500 pixels high takes one tick and the next pixel adds a second. */
  lemma DefaultStepTicks()
    ensures ExpectedTicks(0, DefaultStep) == 1
    ensures ExpectedTicks(DefaultStep, DefaultStep) == 1
    ensures ExpectedTicks(DefaultStep + 1, DefaultStep) == 2
  {
  }

  /**
   * The interval loop of `autoScroll`, tick by tick. It returns how many ticks ran
   * and the final `total`.
   */
  method AutoScroll(height: nat, step: nat) returns (ticks: nat, total: nat)
    requires step > 0
    ensures total == ticks * step
    ensures ticks >= 1 && total >= height
    ensures height > 0 ==> total - step < height
    ensures ticks == ExpectedTicks(height, step)
  {
    ticks, total := 0, 0;
    var stopped := false;
    while !stopped
      invariant total == ticks * step
      invariant stopped ==> ticks >= 1 && total >= height
      invariant !stopped ==> total < height || ticks == 0
      invariant ticks >= 1 ==> total - step < height || ticks == 1
      decreases if stopped then 0 else height - total + 1
    {
      ticks := ticks + 1;   // window.scrollBy(0, step)
      total := total + step;
      if total >= height {
        stopped := true;
      }
    }
    FirstReachingTick(height, step, ticks);
  }
}
