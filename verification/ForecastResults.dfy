/** What the battery forecast reports and when: the remaining time counted from the last estimate, when an
    estimate is due, and how a forecast starts over. */
module ForecastResults {
  import opened Bytes
  import opened Forecast

  /** The voltage rose by more than the threshold although the device runs from battery. */
  predicate Recharged(h: History, s: Sample) {
    h.changes != 0 && s.threshold != 0 && s.level > h.last + s.threshold
  }

  /** A usable level, from battery. */
  predicate Discharging(s: Sample) { s.level != 0xffff && s.level != 0xfffe && s.battery }

  /** The sample counts: not reset, not recharged, and the hour after a reset has passed. */
  predicate Counts(h: History, s: Sample) { Discharging(s) && !Recharged(h, s) && s.now >= h.lastTime }

  /** What a sample reports. `rest` is counted from the last estimate on, that is from `lastTime`. */
  ghost predicate Reported(h: History, s: Sample, h': History, rest: int, ready: bool) {
    && (ready <==> Counts(h, s) && h'.changes > 2)
    && (!ready ==> rest == -1)
    && (ready && h'.changes == h.changes ==> h'.left == h.left && s.now + rest == h.lastTime + h.left)
    && (ready && h'.changes != h.changes ==> s.now + rest == h'.lastTime + h'.left && h'.lastTime == h'.lowestTime)
  }

  lemma CalculateReports(h: History, s: Sample)
    ensures Reported(h, s, Calculate(h, s).0, Calculate(h, s).1, Calculate(h, s).2)
  {
    hide LeftTime, TruncDiv;
  }

  /** The lowest level with this sample, and its uptime. */
  function Lowest(h: History, s: Sample): (r: (nat, int)) {
    if s.level < h.lowest then (s.level, s.now) else (h.lowest, h.lowestTime)
  }

  /** The history starts over once, when the first day has passed. */
  predicate FirstDayOver(h: History, s: Sample) { !h.firstDay && s.now - h.firstTime > 86_400_000 }

  /** An estimate is due: in the first period after a drop of 20 or after a day, later after both, or after a
      week; never without a drop since the last one, and not with the sample that ends the first day. */
  predicate EstimateDue(h: History, s: Sample) {
    && !FirstDayOver(h, s)
    && Lowest(h, s).1 != h.lastTime
    && var dropped, day := s.level + 20 <= h.last, s.now > h.lastTime + 86_400_000;
       if h.changes == 2 then dropped || day else (dropped && day) || s.now > h.lastTime + 604_800_000
  }

  /** What a running forecast makes of a sample that counts: the lowest level is tracked; at the end of the
      first day the history starts over at the lowest level; a new estimate is made exactly when it is due, and
      the lowest level starts the next period. */
  lemma RunningForecast(h: History, s: Sample)
    requires 2 <= h.changes < UINT16 - 1 && Counts(h, s)
    ensures
      var h' := Calculate(h, s).0;
      && (h'.lowest, h'.lowestTime) == Lowest(h, s)
      && h'.changes == (if EstimateDue(h, s) then h.changes + 1 else h.changes)
      && h'.firstDay == (h.firstDay || FirstDayOver(h, s))
      && (h'.first, h'.firstTime) == (if FirstDayOver(h, s) then Lowest(h, s) else (h.first, h.firstTime))
      && (h'.last, h'.lastTime) ==
         if FirstDayOver(h, s) || EstimateDue(h, s) then Lowest(h, s) else (h.last, h.lastTime)
  {
    hide LeftTime, TruncDiv;
  }

  /** A forecast starts with the first drop below the level of the reset; every other sample that counts
      changes nothing before. */
  lemma StartsAtDrop(h: History, s: Sample)
    requires h.changes < 2 && Counts(h, s)
    ensures
      var h' := Calculate(h, s).0;
      if s.level < h.lowest then
        && h'.changes == 2
        && h'.first == h'.last == h'.lowest == s.level && h'.firstTime == h'.lastTime == h'.lowestTime == s.now
      else h' == h
    ensures !Calculate(h, s).2
  {
  }

  /** A reset: the history starts over at this sample, and for an hour no sample changes it but another reset. */
  lemma ResetWaits(h: History, s: Sample, t: Sample)
    requires !Discharging(s) || Recharged(h, s)
    ensures
      var (h', _, ready) := Calculate(h, s);
      && !ready && h'.changes == (if Discharging(s) then 1 else 0)
      && h'.lowest == h'.last == s.level && h'.lowestTime == s.now && h'.lastTime == s.now + 3_600_000
      && (h'.firstDay ==> h.firstDay && Discharging(s))
      && (t.now < s.now + 3_600_000 && Discharging(t) && !Recharged(h', t) ==> Calculate(h', t) == (h', -1, false))
  {
    hide Lower, AdjustFirstDay, Refresh;
  }
}
