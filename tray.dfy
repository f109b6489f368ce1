/** The desktop tray app's own state: the alarm it shows as next, the snooze
    deadline set from the menu, and the scheduler loop's once-per-snooze
    refire. */
module Tray {
  import opened Common
  import opened Clock
  import opened WakeRecords

  // ---------------------------------------------------------------------------
  // update_next_alarm: the next alarm read from its HH:MM alone
  // ---------------------------------------------------------------------------

  /** Today at `c`, moved on one day when that is not after `now`. */
  function ClockOccurrence(c: ClockTime, now: int): (r: int)
    requires ValidClock(c)
    ensures now < r <= now + DAY
    ensures r % DAY == Offset(c)
  {
    var today := DayStart(now) + Offset(c);
    TimeOfDayKept(now, Offset(c));
    if today <= now then today + DAY else today
  }

  /** For every time the tray's strict parser accepts, the tray and the
      daemon's `calculate_alarm_datetime` pick the same instant. */
  lemma TrayAgreesWithDaemon(s: string, now: int)
    requires ParseClockStrict(s).Some?
    ensures CalculateAlarmDatetime(s, NoDate, now) == Some(ClockOccurrence(ParseClockStrict(s).value, now))
  {
    StrictImpliesLenient(s);
  }

  /** What one alarm contributes to `update_next_alarm`: nothing when it is
      disabled, its next HH:MM when enabled, or the `ValueError`/`KeyError`
      of `strptime` on a time it cannot read, which ends the call. */
  datatype TrayStep = Inactive | Due(at: int) | TrayRaises

  function TrayStepOf(a: Alarm, now: int): (r: TrayStep)
    ensures r.Inactive? <==> !IsEnabled(a.when)
    ensures r.Due? ==> now < r.at <= now + DAY
    ensures r.TrayRaises? <==> IsEnabled(a.when) && ParseClockStrict(a.when.time).None?
  {
    if !IsEnabled(a.when) then Inactive
    else match ParseClockStrict(a.when.time)
      case None => TrayRaises
      case Some(c) => Due(ClockOccurrence(c, now))
  }

  /** `alarms[k]` is `alarm`, due at `at`, and no earlier alarm in the store
      is due at `at` or before it. */
  predicate FirstSoonest(alarms: seq<Alarm>, now: int, k: int, alarm: Alarm, at: int) {
    && 0 <= k < |alarms| && alarms[k] == alarm && TrayStepOf(alarms[k], now) == Due(at)
    && forall j :: 0 <= j < k && TrayStepOf(alarms[j], now).Due? ==> TrayStepOf(alarms[j], now).at > at
  }

  datatype Pick = Picked(next: Option<Alarm>) | PickRaised

  /** The selection loop of `update_next_alarm` at instant `now`: the enabled
      alarm whose HH:MM comes soonest, the first of equals winning. */
  method PickNextByClock(alarms: seq<Alarm>, now: int) returns (r: Pick)
    ensures r.PickRaised? <==> exists i :: 0 <= i < |alarms| && TrayStepOf(alarms[i], now).TrayRaises?
    ensures r == Picked(None) <==> forall i :: 0 <= i < |alarms| ==> !IsEnabled(alarms[i].when)
    ensures r.Picked? && r.next.Some? ==> IsEnabled(r.next.value.when)
    ensures r.Picked? && r.next.Some? ==>
      exists k, at :: FirstSoonest(alarms, now, k, r.next.value, at)
        && forall j :: 0 <= j < |alarms| && TrayStepOf(alarms[j], now).Due? ==> at <= TrayStepOf(alarms[j], now).at
  {
    var best: Option<(Alarm, int)> := None;
    var bestIndex := 0;
    var i := 0;
    while i < |alarms|
      invariant 0 <= i <= |alarms|
      invariant forall j :: 0 <= j < i ==> !TrayStepOf(alarms[j], now).TrayRaises?
      invariant best.None? <==> forall j :: 0 <= j < i ==> !IsEnabled(alarms[j].when)
      invariant best.Some? ==> FirstSoonest(alarms, now, bestIndex, best.value.0, best.value.1) && bestIndex < i
      invariant best.Some? ==> forall j :: 0 <= j < i && TrayStepOf(alarms[j], now).Due? ==>
        best.value.1 <= TrayStepOf(alarms[j], now).at
    {
      var alarm := alarms[i];
      if IsEnabled(alarm.when) {
        var parsed := ParseClockStrict(alarm.when.time);
        if parsed.None? {
          return PickRaised;
        }
        var at := ClockOccurrence(parsed.value, now);
        if best.None? || at - now < best.value.1 - now {
          best := Some((alarm, at));
          bestIndex := i;
        }
      }
      i := i + 1;
    }
    if best.None? {
      return Picked(None);
    }
    return Picked(Some(best.value.0));
  }

  // ---------------------------------------------------------------------------
  // Snooze
  // ---------------------------------------------------------------------------

  /** `config.get('snooze_minutes', 10)` as `timedelta(minutes=...)` accepts
      it; None is the exception raised for a value that is not a number, or a
      configuration that is not an object. */
  function SnoozeMinutes(config: Json): (r: Option<int>)
    ensures config.JObject? && "snooze_minutes" !in config.fields ==> r == Some(10)
    ensures config.JObject? && "snooze_minutes" in config.fields ==> r == AsNumber(config.fields["snooze_minutes"])
    ensures !config.JObject? ==> r.None?
  {
    match config
    case JObject(m) => if "snooze_minutes" in m then AsNumber(m["snooze_minutes"]) else Some(10)
    case _ => None
  }

  /** The default configuration snoozes for ten minutes. */
  lemma DefaultSnoozeIsTenMinutes()
    ensures SnoozeMinutes(LoadConfig(None)) == Some(10)
  {
  }

  /** One pass of the scheduler loop's snooze check at `now`: the new
      deadline, and the mode of the wake sequence it starts again, if any. */
  function SnoozeCheck(snoozeUntil: Option<int>, next: Option<Alarm>, now: int): (r: (Option<int>, Option<string>))
    ensures snoozeUntil.None? || now < snoozeUntil.value ==> r == (snoozeUntil, None)
    ensures snoozeUntil.Some? && now >= snoozeUntil.value ==> r.0.None?
    ensures r.1.Some? <==> snoozeUntil.Some? && now >= snoozeUntil.value && next.Some?
    ensures r.1.Some? ==> r.1.value == next.value.mode.GetOr("normal")
  {
    if snoozeUntil.Some? && now >= snoozeUntil.value then
      (None, if next.Some? then Some(next.value.mode.GetOr("normal")) else None)
    else (snoozeUntil, None)
  }

  /** A snooze refires at most once: after the check that refired, no later
      check refires until the user snoozes again. */
  lemma {:induction false} SnoozeRefiresOnce(snoozeUntil: Option<int>, next: Option<Alarm>, now: int, later: int)
    requires SnoozeCheck(snoozeUntil, next, now).1.Some?
    ensures SnoozeCheck(SnoozeCheck(snoozeUntil, next, now).0, next, later) == (None, None)
  {
  }

  /** Snoozing for `m` minutes at `t` refires nothing before `t + m` minutes
      and refires the shown alarm's mode at any check from then on. This is
      about one check; it says nothing of a loop that an exception has
      already ended. */
  lemma SnoozeDeadline(m: int, t: int, next: Alarm, now: int)
    ensures now < t + m * MINUTE ==> SnoozeCheck(Some(t + m * MINUTE), Some(next), now).1.None?
    ensures now >= t + m * MINUTE ==> SnoozeCheck(Some(t + m * MINUTE), Some(next), now).1 == Some(next.mode.GetOr("normal"))
  {
  }

  /** The module-level `state` object of the tray app. The scheduler thread
      handle and the icon are not modelled. */
  class AppState {
    var running: bool
    var nextAlarm: Option<Alarm>
    var snoozeUntil: Option<int>

    constructor ()
      ensures running && nextAlarm.None? && snoozeUntil.None?
    {
      running := true;
      nextAlarm := None;
      snoozeUntil := None;
    }

    /** `action_snooze` at `now` with the loaded configuration; it snoozes
        whether or not anything is ringing. On an unusable `snooze_minutes`
        the handler raises before assigning, and nothing changes. */
    method Snooze(config: Json, now: int) returns (ok: bool)
      modifies this
      ensures ok <==> SnoozeMinutes(config).Some?
      ensures ok ==> snoozeUntil == Some(now + SnoozeMinutes(config).value * MINUTE)
      ensures !ok ==> snoozeUntil == old(snoozeUntil)
      ensures running == old(running) && nextAlarm == old(nextAlarm)
    {
      var minutes := SnoozeMinutes(config);
      if minutes.None? {
        return false;
      }
      snoozeUntil := Some(now + minutes.value * MINUTE);
      return true;
    }

    /** `action_stop_alarm`: clears the snooze. */
    method StopAlarm()
      modifies this
      ensures snoozeUntil.None?
      ensures running == old(running) && nextAlarm == old(nextAlarm)
    {
      snoozeUntil := None;
    }

    /** `action_quit`: ends the scheduler loop. */
    method Quit()
      modifies this
      ensures !running
      ensures nextAlarm == old(nextAlarm) && snoozeUntil == old(snoozeUntil)
    {
      running := false;
    }

    /** `update_next_alarm` at `now` over the loaded alarms. When the
        selection raises, the shown alarm is unchanged and `ok` is false; in
        the app the exception also ends the scheduler loop, which this
        method does not model. */
    method UpdateNextAlarm(alarms: seq<Alarm>, now: int) returns (ok: bool)
      modifies this
      ensures ok <==> forall i :: 0 <= i < |alarms| ==> !TrayStepOf(alarms[i], now).TrayRaises?
      ensures !ok ==> nextAlarm == old(nextAlarm)
      ensures ok ==> (nextAlarm.None? <==> forall i :: 0 <= i < |alarms| ==> !IsEnabled(alarms[i].when))
      ensures ok && nextAlarm.Some? ==> nextAlarm.value in alarms && IsEnabled(nextAlarm.value.when)
      ensures ok && nextAlarm.Some? ==>
        exists k, at :: FirstSoonest(alarms, now, k, nextAlarm.value, at)
          && forall j :: 0 <= j < |alarms| && TrayStepOf(alarms[j], now).Due? ==> at <= TrayStepOf(alarms[j], now).at
      ensures running == old(running) && snoozeUntil == old(snoozeUntil)
    {
      var pick := PickNextByClock(alarms, now);
      if pick.PickRaised? {
        return false;
      }
      nextAlarm := pick.next;
      return true;
    }

    /** The snooze branch of one pass of the scheduler loop at `now`; it
        returns the mode of the wake sequence it starts, if any. */
    method CheckSnooze(now: int) returns (refire: Option<string>)
      modifies this
      ensures (snoozeUntil, refire) == SnoozeCheck(old(snoozeUntil), nextAlarm, now)
      ensures running == old(running) && nextAlarm == old(nextAlarm)
    {
      refire := None;
      if snoozeUntil.Some? && now >= snoozeUntil.value {
        snoozeUntil := None;
        if nextAlarm.Some? {
          refire := Some(nextAlarm.value.mode.GetOr("normal"));
        }
      }
    }
  }
}
