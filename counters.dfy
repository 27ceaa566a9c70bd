/**
 * The animated stat counters of main.js.  An element's `data-counter`
 * attribute gives the target, `data-plus` asks for a trailing "+".  Every
 * tick of the interval adds a fixed step to a running value and displays
 * it, until the running value reaches the target: that tick displays the
 * target itself and stops the interval.  Ticks are modelled as the
 * iterations of one loop; the 16 ms timer is not.
 */
module Counters {
  import opened Wrappers
  import opened Numerals

  /**
   * `parseInt(attr, 10) || 0`: the parsed number, with a missing or
   * unparsable attribute (NaN) read as zero.
   */
  function Target(parsed: Option<int>): (t: int)
    ensures parsed.None? ==> t == 0
    ensures parsed.Some? ==> t == parsed.value
  {
    parsed.GetOr(0)
  }

  /**
   * `Math.max(1, Math.floor(target / 60))`.  Dafny's `/` by a positive
   * number rounds down, as `Math.floor` does, also for negative targets.
   * The step is at least one, so every tick brings the running value
   * closer to the target.
   */
  function Step(target: int): (step: int)
    ensures step >= 1
  {
    if target / 60 > 1 then target / 60 else 1
  }

  /**
   * For a target of sixty or more the step is the largest that sixty ticks
   * do not overshoot; below twice sixty it is one.
   */
  lemma StepBounds(target: int)
    ensures target >= 60 ==> Step(target) * 60 <= target < (Step(target) + 1) * 60
    ensures target < 2 * 60 ==> Step(target) == 1
  {
  }

  /** What the last tick displays: the target, and "+" when `data-plus` is present. */
  function FinalText(target: int, plus: bool): (text: string)
    ensures |text| > 0
    ensures plus <==> text[|text| - 1] == '+'
  {
    var digits := IntToString(target);
    assert !plus ==> IsDigit(digits[|digits| - 1]) by {
      var n: nat := if target < 0 then -target else target;
      assert digits[|digits| - 1] == NatToString(n)[|NatToString(n)| - 1];
    }
    digits + (if plus then "+" else "")
  }

  /** The final text reads back as the target once an optional "+" is dropped. */
  lemma FinalTextReadsBack(target: int, plus: bool)
    ensures var text := FinalText(target, plus);
      ReadInt(text[..|text| - (if plus then 1 else 0)]) == Some(target)
  {
    var text := FinalText(target, plus);
    assert text[..|text| - (if plus then 1 else 0)] == IntToString(target);
    IntToStringRoundTrip(target);
  }

  /** The value after `ticks` ticks of `current += step`, starting from zero. */
  function RunningSum(ticks: nat, step: int): int
  {
    if ticks == 0 then 0 else RunningSum(ticks - 1, step) + step
  }

  /** The running value after `ticks` ticks is `ticks * step`. */
  lemma {:induction false} RunningSumIsProduct(ticks: nat, step: int)
    ensures RunningSum(ticks, step) == ticks * step
  {
    if ticks > 0 {
      RunningSumIsProduct(ticks - 1, step);
      assert ticks * step == (ticks - 1) * step + step;
    }
  }

  /**
   * Runs the interval callback until it clears itself and returns what each
   * tick displayed.  Every tick `k` but the last shows the running value
   * after `k` ticks, which is still below the target; the last shows the
   * final text, on the first tick whose running value reaches the target.
   * It is the only tick when one step already reaches the target.
   */
  method Animate(target: int, plus: bool) returns (shown: seq<string>)
    ensures |shown| >= 1
    ensures shown[|shown| - 1] == FinalText(target, plus)
    ensures forall k :: 0 < k < |shown| ==>
      RunningSum(k, Step(target)) < target && shown[k - 1] == IntToString(RunningSum(k, Step(target)))
    ensures RunningSum(|shown|, Step(target)) >= target
    ensures |shown| == 1 <==> Step(target) >= target
  {
    var step := Step(target);
    var current := 0;
    shown := [];
    while true
      invariant current == RunningSum(|shown|, step)
      invariant current < target || shown == []
      invariant forall k :: 0 < k <= |shown| ==>
        RunningSum(k, step) < target && shown[k - 1] == IntToString(RunningSum(k, step))
      decreases target - current
    {
      ghost var before := shown;
      current := current + step;
      assert current == RunningSum(|before| + 1, step);
      assert RunningSum(1, step) == step;
      assert |before| > 0 ==> RunningSum(1, step) < target;
      if current >= target {
        shown := shown + [FinalText(target, plus)];
        assert forall k :: 0 <= k < |shown| - 1 ==> shown[k] == before[k];
        return;
      }
      shown := shown + [IntToString(current)];
      assert forall k :: 0 <= k < |before| ==> shown[k] == before[k];
    }
  }

  /**
   * A counter without a usable `data-counter` counts to zero and is done
   * after one tick, showing "0" (or "0+").
   */
  method AnimateMissingAttribute(plus: bool) returns (shown: seq<string>)
    ensures shown == [if plus then "0+" else "0"]
  {
    shown := Animate(Target(None), plus);
    assert Step(0) == 1;
    assert DigitChar(0) == '0';
    assert IntToString(0) == "0";
    assert |shown| == 1;
    assert FinalText(0, plus) == if plus then "0+" else "0";
  }
}
