/** `get_next_alarm`: the enabled alarm whose next occurrence is nearest in
    the future, with the time left until it. */
module WakeNext {
  import opened Common
  import opened Clock
  import opened WakeRecords
  import opened WakeTick

  /** The instant `get_next_alarm` first reads an alarm as scheduled for. It
      differs from the tick's reading only for an alarm with neither a target
      nor a date: that one goes through `calculate_alarm_datetime` and so lies
      in the coming day rather than today. None is a record the `try` skips. */
  function NextTarget(w: Timing, now: int): (r: Option<int>)
    ensures !(w.target.Missing? && w.date.NoDay?) ==> r == TickTarget(w, now)
    ensures w.target.Missing? && w.date.NoDay? ==> r == CalculateAlarmDatetime(w.time, NoDate, now)
  {
    if w.target.Missing? && w.date.NoDay? then CalculateAlarmDatetime(w.time, NoDate, now)
    else TickTarget(w, now)
  }

  /** What one alarm contributes: nothing, an occurrence strictly after `now`,
      or the exception of the daily recomputation, which sits outside the
      `try` and so ends the whole call. */
  datatype NextStep = Ignored | Candidate(at: int) | Raises

  function NextStepOf(a: Alarm, now: int): (r: NextStep)
    ensures r.Candidate? ==> r.at > now
    ensures r.Candidate? ==> IsEnabled(a.when)
    ensures a.when.repeat == "once" && a.when.lastTriggered != Missing ==> r.Ignored?
    ensures r.Raises? ==> a.when.repeat == "daily" && !ValidTime(a.when.time)
  {
    if !IsEnabled(a.when) then Ignored
    else match NextTarget(a.when, now)
      case None => Ignored
      case Some(t) =>
        if a.when.repeat == "once" && a.when.lastTriggered != Missing then Ignored
        else if a.when.repeat == "daily" && t < now then
          match CalculateAlarmDatetime(a.when.time, NoDate, now)
          case None => Raises
          case Some(u) => Candidate(u)
        else if t > now then Candidate(t)
        else Ignored
  }

  /** `alarms[k]` is `alarm`, occurring at `at`, and no earlier alarm in the
      store occurs at `at` or before it. */
  predicate FirstNearest(alarms: seq<Alarm>, now: int, k: int, alarm: Alarm, at: int) {
    && 0 <= k < |alarms| && alarms[k] == alarm && NextStepOf(alarms[k], now) == Candidate(at)
    && forall j :: 0 <= j < k && NextStepOf(alarms[j], now).Candidate? ==> NextStepOf(alarms[j], now).at > at
  }

  datatype NextOutcome =
    | NoneUpcoming
    | Found(alarm: Alarm, at: int, deltaSeconds: int)
    | NextRaised

  /** `get_next_alarm()` at instant `now` over the loaded `alarms`: the first
      alarm, in store order, with the smallest positive time left. */
  method GetNextAlarm(alarms: seq<Alarm>, now: int) returns (r: NextOutcome)
    ensures r.NextRaised? <==> exists i :: 0 <= i < |alarms| && NextStepOf(alarms[i], now).Raises?
    ensures r.NoneUpcoming? <==>
      forall i :: 0 <= i < |alarms| ==> NextStepOf(alarms[i], now).Ignored?
    ensures r.Found? ==> r.at > now && r.deltaSeconds == r.at - now
    ensures r.Found? ==> exists k :: FirstNearest(alarms, now, k, r.alarm, r.at)
    ensures r.Found? ==> forall j :: 0 <= j < |alarms| && NextStepOf(alarms[j], now).Candidate? ==>
      r.at <= NextStepOf(alarms[j], now).at
  {
    var best: Option<(Alarm, int)> := None;
    var bestIndex := 0;
    var i := 0;
    while i < |alarms|
      invariant 0 <= i <= |alarms|
      invariant forall j :: 0 <= j < i ==> !NextStepOf(alarms[j], now).Raises?
      invariant best.None? <==> forall j :: 0 <= j < i ==> NextStepOf(alarms[j], now).Ignored?
      invariant best.Some? ==> (0 <= bestIndex < i && alarms[bestIndex] == best.value.0
        && NextStepOf(alarms[bestIndex], now) == Candidate(best.value.1))
      invariant best.Some? ==> forall j :: 0 <= j < bestIndex && NextStepOf(alarms[j], now).Candidate? ==>
        NextStepOf(alarms[j], now).at > best.value.1
      invariant best.Some? ==> forall j :: 0 <= j < i && NextStepOf(alarms[j], now).Candidate? ==>
        best.value.1 <= NextStepOf(alarms[j], now).at
    {
      var alarm := alarms[i];
      var step := NextStepOf(alarm, now);
      if step.Raises? {
        return NextRaised;
      }
      if step.Candidate? && (best.None? || step.at - now < best.value.1 - now) {
        best := Some((alarm, step.at));
        bestIndex := i;
      }
      i := i + 1;
    }
    if best.None? {
      return NoneUpcoming;
    }
    assert FirstNearest(alarms, now, bestIndex, best.value.0, best.value.1);
    return Found(best.value.0, best.value.1, best.value.1 - now);
  }

  /** A daily alarm whose stored target has passed is reported at its time
      of day within the coming day. */
  lemma DailyPastTargetRollsForward(a: Alarm, now: int)
    requires IsEnabled(a.when) && a.when.repeat == "daily" && ValidTime(a.when.time)
    requires NextTarget(a.when, now).Some? && NextTarget(a.when, now).value < now
    ensures NextStepOf(a, now).Candidate?
    ensures now < NextStepOf(a, now).at <= now + DAY
    ensures NextStepOf(a, now).at % DAY == Offset(ParseClock(a.when.time).value)
  {
  }

  /** Once the tick has fired a "once" alarm, it is never the next alarm. */
  lemma FiredOnceIsNeverNext(a: Alarm, fired: int, now: int)
    requires AlarmVerdict(a, fired).Fire? && a.when.repeat == "once"
    ensures NextStepOf(AlarmAfterTick(a, fired), now) == Ignored
  {
  }

  /** A daily alarm the tick has just fired is next due exactly one day after
      the occurrence that fired. */
  lemma FiredDailyIsNextTomorrow(a: Alarm, now: int)
    requires AlarmVerdict(a, now).Fire? && a.when.repeat == "daily"
    ensures NextStepOf(AlarmAfterTick(a, now), now) == Candidate(AlarmVerdict(a, now).target + DAY)
  {
  }
}
