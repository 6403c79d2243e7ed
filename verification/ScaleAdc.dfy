/** The stable sampling window of `nau7802.c`: `scale_read_channel_value` and `scale_values_average`. */
module ScaleAdc {
  import opened Bytes

  const MAX_ADC_DITHER := 1536
  const MAX_ADC_HISTORY := 8
  const MAX_ADC_VALUE := 0x7ffffd
  const ENODATA := 61

  /** Result of one read of the converter: a sample or a failure. */
  datatype Read = Sample(value: int) | Failed

  function Sum(values: seq<int>): int {
    if values == [] then 0 else Sum(values[..|values| - 1]) + values[|values| - 1]
  }

  /** The rounded mean: half the count is added, the division truncates toward zero. */
  function Average(values: seq<int>): int
    requires values != []
  {
    if |values| == 1 then values[0] else TruncDiv(Sum(values) + |values| / 2, |values|)
  }

  /** `scale_values_average`. */
  method ValuesAverage(counter: nat, values: array<int>) returns (rc: int)
    requires counter <= values.Length
    ensures rc == if counter == 0 then -ENODATA else Average(values[..counter])
  {
    rc := -ENODATA;
    if counter > 0 {
      var v := values[0];
      assert values[..1] == [values[0]] && Sum([]) == 0;
      assert [values[0]][..0] == [];
      if counter > 1 {
        for i := 1 to counter
          invariant v == Sum(values[..i])
        {
          assert values[..i + 1][..i] == values[..i];
          v := v + values[i];
        }
        rc := TruncDiv(v + counter / 2, counter);
      } else {
        rc := v;
      }
    }
  }

  // ----- the mean

  ghost predicate Within(values: seq<int>, low: int, high: int) {
    forall v :: v in values ==> low <= v <= high
  }

  lemma {:induction false} SumBounds(values: seq<int>, low: int, high: int)
    requires Within(values, low, high)
    ensures low * |values| <= Sum(values) <= high * |values|
  {
    if values != [] {
      var init, last := values[..|values| - 1], values[|values| - 1];
      assert last in values && forall v :: v in init ==> v in values;
      SumBounds(init, low, high);
      MulDistributes(low, |init|, 1);
      MulDistributes(high, |init|, 1);
    }
  }

  lemma MulStep(d: int, a: int, b: int)
    requires d > 0 && a < b
    ensures a * d + d <= b * d
  {
    MulMonotone(d, a + 1, b);
  }

  lemma TruncBounds(n: int, d: int, low: int, high: int)
    requires d > 0 && low * d <= n < high * d + d
    ensures low <= TruncDiv(n, d) <= high + 1
    ensures n >= 0 ==> TruncDiv(n, d) <= high
  {
    hide TruncDiv;
    var q := TruncDiv(n, d);
    if q < low {
      MulStep(d, q, low);
    } else if q > high {
      MulStep(d, high, q);
      if q > high + 1 {
        MulStep(d, high, high + 1);
        MulStep(d, high + 1, q);
      }
    }
  }

  /** The mean lies between the smallest sample and one above the largest; rounding up past the largest
      happens only below zero. */
  lemma AverageBounds(values: seq<int>, low: int, high: int)
    requires values != [] && Within(values, low, high)
    ensures low <= Average(values) <= high + 1
    ensures low >= 0 ==> Average(values) <= high
  {
    var n := |values|;
    assert values[0] in values;
    SumBounds(values, low, high);
    MulDistributes(n, high, 1);
    TruncBounds(Sum(values) + n / 2, n, low, high);
    if low >= 0 { MulMonotone(n, 0, low); }
  }

  /** Exactly when the mean lies above all samples: more than one sample, and the half count lifts the sum
      past the largest sample's multiple while it stays below zero, where the division rounds up. */
  lemma AverageAboveMaxIff(values: seq<int>, low: int, high: int)
    requires Within(values, low, high) && high in values
    ensures Average(values) > high <==>
      |values| > 1 && |values| * high < Sum(values) + |values| / 2 < 0
  {
    var n, total := |values|, Sum(values) + |values| / 2;
    SumBounds(values, low, high);
    MulDistributes(n, high, 1);
    if n > 1 {
      if total >= 0 {
        TruncBounds(total, n, low, high);
      } else {
        TruncAbove(total, n, high);
      }
    }
  }

  /** Below zero the truncated quotient is above `high` exactly when the dividend is above its multiple. */
  lemma TruncAbove(total: int, n: int, high: int)
    requires n > 0 && total < 0
    ensures TruncDiv(total, n) > high <==> n * high < total
  {
    var q := TruncDiv(total, n);
    if q <= high {
      MulMonotone(n, q, high);
    } else {
      MulStep(n, high, q);
    }
  }

  /** Four equal samples of -1 have the mean 0. */
  lemma AverageAboveAll()
    ensures Average([-1, -1, -1, -1]) == 0
  {
    assert [-1, -1, -1, -1][..3] == [-1, -1, -1];
    assert [-1, -1, -1][..2] == [-1, -1] && [-1, -1][..1] == [-1] && [-1][..0] == [];
    assert Sum([-1]) == -1;
    assert Sum([-1, -1, -1]) == -3;
  }

  // ----- the sampling loop

  /** The samples read from `from` on. */
  ghost predicate Samples(converter: nat -> Read, from: nat, values: seq<int>) {
    forall i :: 0 <= i < |values| ==> converter(from + i) == Sample(values[i])
  }

  /** The values in the window are the last samples, `min` and `max` are their extremes, and their spread
      is at most the dither. */
  ghost predicate Window(converter: nat -> Read, next: nat, values: seq<int>, min: int, max: int) {
    && values != [] && |values| <= next
    && Samples(converter, next - |values|, values)
    && Within(values, min, max) && min in values && max in values
    && max - min <= MAX_ADC_DITHER
  }

  lemma WindowGrows(converter: nat -> Read, next: nat, values: seq<int>, min: int, max: int, v: int)
    requires Window(converter, next, values, min, max) && converter(next) == Sample(v)
    ensures
      var low, high := Min(min, v), Max(max, v);
      high - low <= MAX_ADC_DITHER ==> Window(converter, next + 1, values + [v], low, high)
  {
    var all := values + [v];
    assert forall x :: x in all <==> x in values || x == v;
    assert forall i :: 0 <= i < |all| ==> all[i] == if i < |values| then values[i] else v;
  }

  lemma WindowRestarts(converter: nat -> Read, next: nat, v: int)
    requires converter(next) == Sample(v)
    ensures Window(converter, next + 1, [v], v, v)
  {
  }

  /** What holds of a full window. */
  ghost predicate StableWindow(converter: nat -> Read, next: nat, window: seq<int>) {
    && |window| <= next && Samples(converter, next - |window|, window)
    && exists low, high :: low in window && high in window && Within(window, low, high) && high - low <= MAX_ADC_DITHER
  }

  lemma WindowStable(converter: nat -> Read, next: nat, values: seq<int>, min: int, max: int)
    requires Window(converter, next, values, min, max)
    ensures StableWindow(converter, next, values)
  {
  }

  /** The converter reads no failures, and from read `from` on all samples lie within the dither. */
  ghost predicate Settles(converter: nat -> Read, from: nat, low: int) {
    && (forall i: nat :: converter(i).Sample?)
    && (forall i: nat :: i >= from ==> low <= converter(i).value <= low + MAX_ADC_DITHER)
  }

  /** The latest read a window starts with, when the samples from read `from` on are settled. */
  function LatestStart(start: nat, from: nat, minValues: nat): int {
    if from <= start then start else from + Max(2, minValues) - 2
  }

  /** A settled sample never breaks a window of settled samples. */
  lemma SettledGrows(
      converter: nat -> Read, next: nat, values: seq<int>, min: int, max: int, v: int, from: nat, low: int)
    requires Window(converter, next, values, min, max) && converter(next) == Sample(v)
    requires Settles(converter, from, low) && from <= next - |values|
    ensures Max(max, v) - Min(min, v) <= MAX_ADC_DITHER
  {
    var i :| 0 <= i < |values| && values[i] == min;
    var j :| 0 <= j < |values| && values[j] == max;
    assert converter(next - |values| + i) == Sample(min) && converter(next - |values| + j) == Sample(max);
  }

  /** The window that starts with read `first` starts soon enough behind the read the samples settle with. */
  ghost predicate StartsInTime(converter: nat -> Read, start: nat, first: int, minValues: nat) {
    forall from: nat, low | Settles(converter, from, low) :: first <= LatestStart(start, from, minValues)
  }

  /** A window that is broken by a sample started before the samples were settled. */
  lemma RestartsInTime(
      converter: nat -> Read, start: nat, next: nat, values: seq<int>, min: int, max: int, v: int, minValues: nat)
    requires Window(converter, next, values, min, max) && converter(next) == Sample(v)
    requires Max(max, v) - Min(min, v) > MAX_ADC_DITHER
    requires |values| < Max(2, minValues) && start <= next - |values|
    ensures StartsInTime(converter, start, next, minValues)
  {
    hide Settles;
    forall from: nat, low | Settles(converter, from, low)
      ensures next <= LatestStart(start, from, minValues)
    {
      if from <= next - |values| {
        SettledGrows(converter, next, values, min, max, v, from, low);
        assert false;
      }
    }
  }

  datatype Outcome = Stable(raw: int) | Unstable | ReadError | Invalid

  /** For a converter that settles: no read error, no giving up when there are loops enough, and the window that
      is used starts soon enough. */
  ghost predicate SettlesInTime(
      converter: nat -> Read, start: nat, maxLoops: nat, minValues: nat, outcome: Outcome, first: int)
  {
    forall from: nat, low | Settles(converter, from, low) ::
      && !outcome.ReadError?
      && (maxLoops + start >= LatestStart(start, from, minValues) + minValues ==> !outcome.Unstable?)
      && (outcome.Stable? ==> first <= LatestStart(start, from, minValues))
  }

  lemma NotSettled(
      converter: nat -> Read, i: nat, start: nat, maxLoops: nat, minValues: nat, outcome: Outcome, first: int)
    requires converter(i).Failed?
    ensures SettlesInTime(converter, start, maxLoops, minValues, outcome, first)
  {
  }

  lemma EndsInTime(
      converter: nat -> Read, start: nat, loops: nat, counter: nat, maxLoops: nat, minValues: nat, outcome: Outcome)
    requires StartsInTime(converter, start, start + loops - counter, minValues) && !outcome.ReadError?
    requires outcome.Unstable? ==> counter < minValues && loops >= maxLoops
    ensures SettlesInTime(converter, start, maxLoops, minValues, outcome, start + loops - counter)
  {
    hide Settles, LatestStart;
  }

  /** Neither the raw value nor the value without the converter's own offset is out of range. */
  predicate InRange(raw: int, internalOffset: int) {
    && -MAX_ADC_VALUE <= raw <= MAX_ADC_VALUE
    && (internalOffset != 0 ==> -MAX_ADC_VALUE <= raw - internalOffset <= MAX_ADC_VALUE)
  }

  /** The sampling loop behind the first kept sample, read `start`: the window is in `values[..counter]`. */
  method FillWindow(converter: nat -> Read, start: nat, maxLoops: nat, minValues: nat, values: array<int>)
    returns (counter: nat, loops: nat, next: nat, failed: bool)
    requires minValues <= MAX_ADC_HISTORY == values.Length && converter(start).Sample?
    modifies values
    ensures 1 <= counter <= Max(2, minValues) && counter <= MAX_ADC_HISTORY
    ensures loops <= if maxLoops > 2 then maxLoops else 2
    ensures failed ==> next > 0 && converter(next - 1).Failed?
    ensures !failed ==>
      && next == start + loops && (counter >= minValues || loops >= maxLoops)
      && StableWindow(converter, next, values[..counter])
      && StartsInTime(converter, start, next - counter, minValues)
  {
    hide Window, StableWindow, Settles, StartsInTime;
    var v := converter(start).value;
    values[0] := v;
    var min, max := v, v;
    counter, loops, next, failed := 1, 1, start + 1, false;
    ghost var kept, stable := [v], true;
    WindowRestarts(converter, start, v);
    FirstInTime(converter, start, minValues);
    var more := true;
    while more
      invariant 1 <= counter <= Max(2, minValues) && kept == values[..counter] && counter <= |kept|
      invariant loops <= if maxLoops > 2 then maxLoops else 2
      invariant more ==> stable && if loops == 1 then counter == 1 else counter < minValues && loops < maxLoops
      invariant more || counter >= minValues || loops >= maxLoops
      invariant !failed && next == start + loops && counter <= loops
      invariant stable ==> min <= max && Window(converter, next, kept, min, max)
      invariant StableWindow(converter, next, kept)
      invariant StartsInTime(converter, start, next - counter, minValues)
      decreases more, maxLoops - loops
    {
      var r := converter(next);
      next := next + 1;
      if r.Failed? {
        failed := true;
        return;
      }
      loops := loops + 1;
      v := r.value;
      WindowGrows(converter, next - 1, kept, min, max, v);
      if Max(max, v) - Min(min, v) > MAX_ADC_DITHER {
        RestartsInTime(converter, start, next - 1, kept, min, max, v, minValues);
      }
      if v < min {
        min := v;
      } else if v > max {
        max := v;
      }
      if max - min > MAX_ADC_DITHER {
        counter := 1;
        values[0] := v;
        kept := [v];
        WindowRestarts(converter, next - 1, v);
        WindowStable(converter, next, kept, v, v);
        if loops < maxLoops {
          max := v;
          min := v;
        } else {
          stable := false;
        }
      } else {
        values[counter] := v;
        counter := counter + 1;
        kept := kept + [v];
        WindowStable(converter, next, kept, min, max);
      }
      more := counter < minValues && loops < maxLoops;
    }
  }

  lemma FirstInTime(converter: nat -> Read, start: nat, minValues: nat)
    requires converter(start).Sample?
    ensures StartsInTime(converter, start, start, minValues)
    ensures StableWindow(converter, start + 1, [converter(start).value])
  {
    hide Settles;
    var v := converter(start).value;
    WindowRestarts(converter, start, v);
    WindowStable(converter, start + 1, [v], v, v);
  }

  /** `scale_read_channel_value` from the first read on; `extraFirst` says that an initial sample is read
      and dropped. On success `values[..counter]` are the last samples before read `next`. */
  method ReadChannelValue(converter: nat -> Read, extraFirst: bool, maxLoops: nat, minValues: nat, internalOffset: int)
    returns (outcome: Outcome, loops: nat, next: nat, window: seq<int>)
    requires minValues <= MAX_ADC_HISTORY
    ensures loops <= if maxLoops > 2 then maxLoops else 2
    ensures outcome.Stable? ==>
      && (if minValues >= 2 then |window| == minValues else 1 <= |window| <= 2)
      && StableWindow(converter, next, window)
      && outcome.raw == Average(window)
      && InRange(outcome.raw, internalOffset)
    ensures outcome.Unstable? ==> loops >= maxLoops && |window| < minValues
    ensures outcome.ReadError? ==> next > 0 && converter(next - 1).Failed?
    ensures SettlesInTime(converter, if extraFirst then 1 else 0, maxLoops, minValues, outcome, next - |window|)
    ensures outcome.Invalid? ==> window != [] && !InRange(Average(window), internalOffset)
  {
    hide StableWindow, Average, Settles, StartsInTime, SettlesInTime;
    loops, next, window := 1, 1, [];
    var start := 0;
    var first := converter(0);
    if extraFirst {
      if first.Failed? {
        NotSettled(converter, 0, 1, maxLoops, minValues, ReadError, 1);
        return ReadError, loops, next, window;
      }
      start, next := 1, 2;
      first := converter(1);
    }
    if first.Failed? {
      NotSettled(converter, start, start, maxLoops, minValues, ReadError, start + 1);
      return ReadError, loops, next, window;
    }
    var values := new int[MAX_ADC_HISTORY];
    var counter, failed;
    counter, loops, next, failed := FillWindow(converter, start, maxLoops, minValues, values);
    var mean := ValuesAverage(counter, values);
    window := values[..counter];
    if mean < -MAX_ADC_VALUE || mean > MAX_ADC_VALUE {
      outcome := Invalid;
    } else if internalOffset != 0
              && (mean - internalOffset < -MAX_ADC_VALUE || mean - internalOffset > MAX_ADC_VALUE) {
      outcome := Invalid;
    } else if failed {
      outcome := ReadError;
    } else if counter < minValues {
      outcome := Unstable;
    } else {
      outcome := Stable(mean);
    }
    if failed {
      NotSettled(converter, next - 1, start, maxLoops, minValues, outcome, next - counter);
    } else {
      EndsInTime(converter, start, loops, counter, maxLoops, minValues, outcome);
    }
  }
}
