/** animateCounter: a 16 ms interval that raises a counter element's text from 0
    towards its target in 2000 / 16 = 125 equal steps, clamping at the target.
    JavaScript numbers are modelled as exact reals. */
module CounterAnimation {

  /** Total animation time and interval period, in ms. */
  const Duration: int := 2000
  const TickMs: int := 16

  /** Number of interval ticks the animation is spread over (2000 / 16). */
  const Steps: real := Duration as real / TickMs as real

  /** `increment`: what each tick adds to `current`. */
  function Increment(target: int): real
  {
    target as real / Steps
  }

  /** `current` after k ticks, had none of them clamped it. */
  function Accumulated(target: int, k: nat): real
  {
    (k * target) as real / Steps
  }

  /** The text written to the element at tick k (k >= 1) of an interval still
      running: the target itself once the accumulated value reaches it, the floor
      of the accumulated value before. */
  function Written(target: int, k: nat): int
  {
    if Accumulated(target, k) >= target as real then target
    else Accumulated(target, k).Floor
  }

  /** How many ticks run before clearInterval: one when the target is not
      positive (the first tick already reaches it), otherwise the full 125. */
  function TickCount(target: int): nat
  {
    if target <= 0 then 1 else 125
  }

  /** A positive target is reached exactly at tick 125 and not before. */
  lemma ReachedExactlyAtLastStep(target: int, k: nat)
    requires target > 0
    ensures Accumulated(target, k) >= target as real <==> k >= 125
  {
  }

  /** The counter never shows more than its target (for any target). */
  lemma {:induction false} WrittenAtMostTarget(target: int, k: nat)
    ensures Written(target, k) <= target
  {
  }

  /** For a non-negative target the shown value never decreases from one tick
      to the next. */
  lemma WrittenMonotone(target: int, k: nat)
    requires target >= 0
    ensures Written(target, k) <= Written(target, k + 1)
  {
  }

  /** Monotonicity over any two ticks. */
  lemma {:induction false} WrittenMonotoneBetween(target: int, i: nat, j: nat)
    requires target >= 0 && i <= j
    ensures Written(target, i) <= Written(target, j)
    decreases j - i
  {
    if i < j {
      WrittenMonotone(target, i);
      WrittenMonotoneBetween(target, i + 1, j);
    }
  }

  /** The interval of animateCounter, run to completion: `shown` is the sequence
      of values written to element.textContent, one per tick, the i-th at
      (i + 1) * 16 ms. */
  method AnimateCounter(target: int) returns (shown: seq<int>)
    ensures |shown| == TickCount(target)
    ensures target > 0 ==> |shown| * TickMs == Duration
    ensures forall i :: 0 <= i < |shown| ==> shown[i] == Written(target, i + 1)
    ensures shown[|shown| - 1] == target
    ensures forall i :: 0 <= i < |shown| ==> shown[i] <= target
    ensures target >= 0 ==> forall i, j :: 0 <= i <= j < |shown| ==> shown[i] <= shown[j]
  {
    var increment := Increment(target);
    var current: real := 0.0;
    var ticks: nat := 0;
    var running := true;
    shown := [];
    while running
      invariant ticks == |shown| <= TickCount(target)
      invariant running ==> ticks < TickCount(target) && current == Accumulated(target, ticks)
      invariant running ==> ticks == 0 || current < target as real
      invariant !running ==> ticks == TickCount(target) && shown[ticks - 1] == target
      invariant forall i :: 0 <= i < ticks ==> shown[i] == Written(target, i + 1)
      decreases TickCount(target) - ticks
    {
      assert (ticks + 1) * target == ticks * target + target;
      current := current + increment;
      ticks := ticks + 1;
      if target > 0 { ReachedExactlyAtLastStep(target, ticks); }
      if current >= target as real {
        current := target as real;
        running := false;
      }
      shown := shown + [current.Floor];
    }
    forall i | 0 <= i < |shown| ensures shown[i] <= target {
      WrittenAtMostTarget(target, i + 1);
    }
    if target >= 0 {
      forall i, j | 0 <= i <= j < |shown| ensures shown[i] <= shown[j] {
        WrittenMonotoneBetween(target, i + 1, j + 1);
      }
    }
  }
}
