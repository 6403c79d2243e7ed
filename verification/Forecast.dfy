/** The battery forecast of `power_manager.c`: `calculate_forecast` as a function on its static history,
    the invariant that makes its divisions safe, and the method itself. */
module Forecast {
  import opened Bytes

  const INVALID_LEVEL := 0xffff
  const RESET_LEVEL := 0xfffe
  const UINT16: nat := 0x1_0000
  const HOUR: int := 3_600_000
  const DAY: int := 86_400_000
  const WEEK: int := 604_800_000
  const MINIMUM_DELTA := 20

  /** `current_battery_changes`, `forecast_first_day`, the first, last and lowest level with their uptimes
      in ms, and the last estimate. `samples` records the levels accepted since the forecast started,
      `guards` how often the division guard fired. */
  datatype History = History(
    changes: nat, firstDay: bool,
    first: nat, firstTime: int, last: nat, lastTime: int, lowest: nat, lowestTime: int,
    left: int, samples: seq<nat>, guards: nat)

  /** A measured level at an uptime; `battery` if running from battery or unknown; the configured threshold. */
  datatype Sample = Sample(now: int, level: nat, battery: bool, threshold: nat)

  /** `calculate_left_time`: the time until the line through both points reaches level 0, added to `time`. */
  function LeftTime(now: int, level: nat, past: int, levelPast: nat, time: int): (r: (int, bool))
    ensures r.1 <==> levelPast != level
    ensures r.1 && levelPast > level && now >= past ==>
      && r.0 >= time
      && (r.0 - time) * (levelPast - level) <= (now - past) * level < (r.0 - time + 1) * (levelPast - level)
  {
    var diff := levelPast - level;
    if diff == 0 then (time, false)
    else if diff > 0 then
      LeftTimeExact(now - past, level, diff);
      (time + TruncDiv((now - past) * level, diff), true)
    else (time - TruncDiv((now - past) * level, -diff), true)
  }

  lemma LeftTimeExact(passed: int, level: nat, d: int)
    requires d > 0
    ensures passed >= 0 ==>
      && 0 <= TruncDiv(passed * level, d)
      && TruncDiv(passed * level, d) * d <= passed * level < (TruncDiv(passed * level, d) + 1) * d
  {
    if passed >= 0 {
      MulMonotone(level, 0, passed);
      var q := passed * level / d;
      assert (q + 1) * d == q * d + d;
    }
  }

  /** Waits an hour: the history restarts at this sample. */
  function Restart(h: History, s: Sample, changes: nat): History {
    h.(last := s.level, lastTime := s.now + HOUR, lowest := s.level, lowestTime := s.now,
       changes := changes, samples := [])
  }

  function Lower(h: History, s: Sample): History {
    var a := h.(samples := if h.changes >= 2 then h.samples + [s.level] else h.samples);
    if h.lowest <= s.level then a
    else
      var b := a.(lowest := s.level, lowestTime := s.now);
      if h.changes >= 2 then b
      else
        b.(first := s.level, firstTime := s.now, last := s.level, lastTime := s.now, changes := 2, samples := [s.level])
  }

  function AdjustFirstDay(h: History, s: Sample): History {
    if !h.firstDay && DAY < s.now - h.firstTime
    then h.(firstDay := true, first := h.lowest, firstTime := h.lowestTime, last := h.lowest, lastTime := h.lowestTime)
    else h
  }

  /** `delta` and `passed` are taken before the sample changes the history. */
  predicate NeedsRefresh(h: History, delta: int, passed: int) {
    && h.lastTime != h.lowestTime
    && if h.changes == 2 then MINIMUM_DELTA <= delta || DAY < passed
       else (MINIMUM_DELTA <= delta && DAY < passed) || WEEK < passed
  }

  function Refresh(h: History): History {
    var a := h.(changes := (h.changes + 1) % UINT16, left := 0);
    var b :=
      if a.firstTime == a.lastTime then
        var (left, ok) := LeftTime(a.lowestTime, a.lowest, a.lastTime, a.last, 0);
        a.(left := left, guards := a.guards + if ok then 0 else 1)
      else
        var (all, ok1) := LeftTime(a.lowestTime, a.lowest, a.firstTime, a.first, 0);
        var (left, ok2) := LeftTime(a.lowestTime, a.lowest, a.lastTime, a.last, all * 2);
        a.(left := TruncDiv(left, 3), guards := a.guards + (if ok1 then 0 else 1) + if ok2 then 0 else 1);
    b.(last := b.lowest, lastTime := b.lowestTime)
  }

  /** `calculate_forecast`: the new history and, once there is an estimate, the remaining time in ms. */
  function Calculate(h: History, s: Sample): (r: (History, int, bool))
  {
    var delta, passed := h.last - s.level, s.now - h.lastTime;
    if s.level == INVALID_LEVEL || s.level == RESET_LEVEL || !s.battery then
      (Restart(h, s, 0).(firstDay := false), -1, false)
    else if h.changes != 0 && s.threshold != 0 && delta + s.threshold < 0 then
      (Restart(h, s, 1), -1, false)
    else if passed < 0 then (h, -1, false)
    else
      var a := Lower(h, s);
      var b := if a.changes > 1 then AdjustFirstDay(a, s) else a;
      var c := if b.changes > 1 && NeedsRefresh(b, delta, passed) then Refresh(b) else b;
      var rest := if b.changes > 1 && NeedsRefresh(b, delta, passed) then s.now - c.lastTime else passed;
      if c.changes > 2 then (c, c.left - rest, true) else (c, -1, false)
  }

  /** The history once a forecast has started. */
  ghost predicate Ordered(h: History, now: int) {
    && h.guards == 0 && h.changes < UINT16
    && (h.changes >= 2 ==>
          && h.firstTime <= h.lastTime <= h.lowestTime <= now
          && RESET_LEVEL > h.first >= h.last >= h.lowest
          && (h.lastTime != h.lowestTime ==> h.last > h.lowest)
          && h.changes <= 2 + (RESET_LEVEL - 1 - h.last)
          && h.samples != [] && h.lowest in h.samples && (forall l :: l in h.samples ==> h.lowest <= l))
    && (h.changes > 2 ==> h.left >= 0)
  }

  lemma LowerOrdered(h: History, s: Sample)
    requires Ordered(h, s.now) && s.level < RESET_LEVEL
    ensures Ordered(Lower(h, s), s.now)
  {
    var r := Lower(h, s);
    if h.changes >= 2 {
      assert forall l :: l in r.samples <==> l in h.samples || l == s.level;
    }
  }

  /** In an ordered history every estimate divides by a positive level difference and is not negative; the
      change counter stays in 16 bits, as every refresh uses up a level. */
  lemma RefreshOrdered(h: History, now: int)
    requires Ordered(h, now) && h.changes >= 2 && h.lastTime != h.lowestTime
    ensures h.last > h.lowest && h.first > h.lowest
    ensures Ordered(Refresh(h), now) && Refresh(h).changes == h.changes + 1 && Refresh(h).left >= 0
    ensures Refresh(h).guards == 0
  {
  }

  /** `time` is what the line through (`past`, `levelPast`) and the lowest point takes from there to level 0,
      rounded down. */
  predicate RunsEmptyIn(h: History, past: int, levelPast: nat, time: int) {
    && levelPast > h.lowest
    && time * (levelPast - h.lowest) <= (h.lowestTime - past) * h.lowest < (time + 1) * (levelPast - h.lowest)
  }

  /** The estimate: in the first period its own line, later two parts of the line over all periods and one
      part of the line over the last one. The lowest point starts the next period. */
  lemma RefreshWeighs(h: History, now: int) returns (all: int, period: int)
    requires Ordered(h, now) && h.changes >= 2 && h.lastTime != h.lowestTime
    ensures RunsEmptyIn(h, h.firstTime, h.first, all) && RunsEmptyIn(h, h.lastTime, h.last, period)
    ensures
      if h.firstTime == h.lastTime then Refresh(h).left == period
      else 3 * Refresh(h).left <= 2 * all + period < 3 * Refresh(h).left + 3
    ensures Refresh(h).last == h.lowest && Refresh(h).lastTime == h.lowestTime
    ensures Refresh(h).first == h.first && Refresh(h).firstTime == h.firstTime
  {
    all := LeftTime(h.lowestTime, h.lowest, h.firstTime, h.first, 0).0;
    period := LeftTime(h.lowestTime, h.lowest, h.lastTime, h.last, 0).0;
    assert LeftTime(h.lowestTime, h.lowest, h.lastTime, h.last, 2 * all).0 == 2 * all + period;
  }

  lemma CalculateOrdered(h: History, s: Sample)
    requires Ordered(h, s.now) && s.level <= INVALID_LEVEL
    ensures Ordered(Calculate(h, s).0, s.now)
    ensures Calculate(h, s).2 ==> Calculate(h, s).0.left >= 0
  {
    hide LeftTime, TruncDiv;
    if s.level < RESET_LEVEL {
      LowerOrdered(h, s);
      var a := Lower(h, s);
      var b := if a.changes > 1 then AdjustFirstDay(a, s) else a;
      assert Ordered(b, s.now);
      if b.changes > 1 && NeedsRefresh(b, h.last - s.level, s.now - h.lastTime) {
        RefreshOrdered(b, s.now);
      }
    }
  }

  function Run(h: History, samples: seq<Sample>): History
    decreases |samples|
  {
    if samples == [] then h else Run(Calculate(h, samples[0]).0, samples[1..])
  }

  /** Uptime does not run backward; levels are 16-bit values. */
  ghost predicate Monotone(samples: seq<Sample>, now: int) {
    && (forall i :: 0 <= i < |samples| ==> samples[i].level <= INVALID_LEVEL && now <= samples[i].now)
    && (forall i, j :: 0 <= i < j < |samples| ==> samples[i].now <= samples[j].now)
  }

  /** For every run with nondecreasing uptime: first <= last <= lowest <= now in time, first >= last >= lowest
      in level, last above lowest whenever their times differ, the guard against division by 0 never fired,
      and the lowest level is the minimum of the samples accepted since the start of the forecast. */
  lemma {:induction false} HistoryOrdered(h: History, samples: seq<Sample>, now: int)
    requires Ordered(h, now) && Monotone(samples, now)
    ensures Ordered(Run(h, samples), if samples == [] then now else samples[|samples| - 1].now)
    decreases |samples|
  {
    if samples != [] {
      var s := samples[0];
      assert Ordered(h, s.now);
      CalculateOrdered(h, s);
      assert Monotone(samples[1..], s.now) by {
        assert forall i :: 0 <= i < |samples| - 1 ==> samples[1..][i] == samples[i + 1];
      }
      HistoryOrdered(Calculate(h, s).0, samples[1..], s.now);
    }
  }

  class BatteryForecast {
    var changes: nat
    var firstDay: bool
    var first: nat
    var firstTime: int
    var last: nat
    var lastTime: int
    var lowest: nat
    var lowestTime: int
    var left: int
    ghost var samples: seq<nat>
    ghost var guards: nat

    ghost function View(): History
      reads this
    {
      History(changes, firstDay, first, firstTime, last, lastTime, lowest, lowestTime, left, samples, guards)
    }

    constructor ()
      ensures Ordered(View(), 0) && changes == 0
    {
      changes, firstDay, left := 0, false, 0;
      first, last, lowest := INVALID_LEVEL, INVALID_LEVEL, INVALID_LEVEL;
      firstTime, lastTime, lowestTime := 0, 0, 0;
      samples, guards := [], 0;
    }

    method CalculateLeftTime(past: int, levelPast: nat)
      modifies this`left, this`guards
      ensures
        var (time, ok) := LeftTime(lowestTime, lowest, past, levelPast, old(left));
        left == time && guards == old(guards) + if ok then 0 else 1
    {
      var diff := levelPast - lowest;
      if diff == 0 {
        guards := guards + 1;
      } else if diff > 0 {
        left := left + TruncDiv((lowestTime - past) * lowest, diff);
      } else {
        left := left - TruncDiv((lowestTime - past) * lowest, -diff);
      }
    }

    /** The refresh of the estimate. */
    method RefreshEstimate()
      modifies this
      ensures View() == Refresh(old(View()))
    {
      hide LeftTime, TruncDiv;
      changes := (changes + 1) % UINT16;
      left := 0;
      if firstTime == lastTime {
        CalculateLeftTime(lastTime, last);
      } else {
        CalculateLeftTime(firstTime, first);
        left := left * 2;
        CalculateLeftTime(lastTime, last);
        left := TruncDiv(left, 3);
      }
      last := lowest;
      lastTime := lowestTime;
    }

    method Forget(s: Sample, newChanges: nat)
      modifies this
      ensures View() == Restart(old(View()), s, newChanges)
    {
      lastTime, last := s.now + HOUR, s.level;
      lowestTime, lowest := s.now, s.level;
      changes := newChanges;
      samples := [];
    }

    /** Tracks the lowest level and starts the forecast. */
    method NoteLevel(s: Sample)
      modifies this
      ensures View() == Lower(old(View()), s)
    {
      if changes >= 2 {
        samples := samples + [s.level];
      }
      if lowest > s.level {
        lowest, lowestTime := s.level, s.now;
        if 2 > changes {
          first, firstTime := s.level, s.now;
          last, lastTime := s.level, s.now;
          changes := 2;
          samples := [s.level];
        }
      }
    }

    method StartSecondDay(s: Sample)
      modifies this
      ensures View() == AdjustFirstDay(old(View()), s)
    {
      if !firstDay && DAY < s.now - firstTime {
        firstDay := true;
        first, firstTime := lowest, lowestTime;
        last, lastTime := lowest, lowestTime;
      }
    }

    method RefreshDue(delta: int, passed: int) returns (refresh: bool)
      ensures refresh == NeedsRefresh(View(), delta, passed)
    {
      refresh := false;
      if lastTime != lowestTime {
        if 2 == changes {
          refresh := MINIMUM_DELTA <= delta || DAY < passed;
        } else {
          if MINIMUM_DELTA <= delta && DAY < passed {
            refresh := true;
          } else if WEEK < passed {
            refresh := true;
          }
        }
      }
    }

    method CalculateForecast(s: Sample) returns (rest: int, ready: bool)
      modifies this
      ensures (View(), rest, ready) == Calculate(old(View()), s)
      ensures old(Ordered(View(), s.now)) && s.level <= INVALID_LEVEL ==> Ordered(View(), s.now)
    {
      hide Refresh, Ordered, Restart, Lower, AdjustFirstDay, NeedsRefresh;
      ghost var before := View();
      if Ordered(before, s.now) && s.level <= INVALID_LEVEL {
        CalculateOrdered(before, s);
      }
      var delta: int := last - s.level;
      var passed := s.now - lastTime;
      if s.level == INVALID_LEVEL || s.level == RESET_LEVEL || !s.battery {
        Forget(s, 0);
        firstDay := false;
        return -1, false;
      }
      if changes != 0 && s.threshold != 0 && delta + s.threshold < 0 {
        Forget(s, 1);
        return -1, false;
      }
      if 0 > passed {
        return -1, false;
      }
      NoteLevel(s);
      if 1 < changes {
        StartSecondDay(s);
      }
      if 1 < changes {
        var refresh := RefreshDue(delta, passed);
        if refresh {
          RefreshEstimate();
          passed := s.now - lastTime;
        }
      }
      if 2 < changes {
        return left - passed, true;
      }
      return -1, false;
    }
  }
}
