/** The scheduler tick: `check_alarms` and `check_reminders` decide which
    records are due at `now`, mark them and roll them over to their next
    occurrence, and save the store once if anything fired. */
module WakeTick {
  import opened Common
  import opened Clock
  import opened WakeRecords

  /** A record is due from its target instant until this many seconds later. */
  const TRIGGER_WINDOW: int := 60
  /** A record triggered less than this many seconds ago is not triggered again. */
  const RETRIGGER_GUARD: int := 120

  /** The instant the tick reads a record as scheduled for: `target_datetime`
      when set, else `date` at `time`, else today at `time`; None when the
      record does not parse and is skipped. */
  function TickTarget(w: Timing, now: int): (r: Option<int>)
    ensures w.target.At? ==> r == Some(w.target.t)
    ensures w.target.Garbled? ==> r.None?
    ensures w.target.Missing? ==> (r.Some? <==> ValidTime(w.time) && !w.date.BadDay?)
    ensures w.target.Missing? && w.date.Day? && r.Some? ==>
      DayOf(r.value) == w.date.d && r.value % DAY == Offset(ParseClock(w.time).value)
    ensures w.target.Missing? && w.date.NoDay? && r.Some? ==>
      DayOf(r.value) == DayOf(now) && r.value % DAY == Offset(ParseClock(w.time).value)
  {
    match w.target
    case At(t) => Some(t)
    case Garbled => None
    case Missing =>
      match ParseClock(w.time)
      case None => None
      case Some(c) =>
        if !ValidClock(c) then None
        else match w.date
          case BadDay => None
          case Day(d) =>
            TimeOfDayKept(d * DAY, Offset(c));
            Some(d * DAY + Offset(c))
          case NoDay =>
            TimeOfDayKept(now, Offset(c));
            Some(DayStart(now) + Offset(c))
  }

  /** What one tick does with one record: nothing, fire it (at the resolved
      target), or raise out of the whole tick. */
  datatype Verdict = Skip | Fire(target: int) | Abort

  /** The tick's decision for a record. `logged` says whether the reads the
      tick makes outside any `try` once it has decided to fire all succeed:
      the key its log line reads with `[]` (`mode`, `message`) and, for a
      reminder, the chat setting. A `last_triggered` that does not parse
      raises too, since it is also read outside the `try`. */
  function TickVerdict(w: Timing, now: int, logged: bool): Verdict {
    if !IsEnabled(w) then Skip
    else match TickTarget(w, now)
      case None => Skip
      case Some(t) =>
        if !(0 <= now - t <= TRIGGER_WINDOW) then Skip
        else match w.lastTriggered
          case Garbled => Abort
          case At(l) =>
            if now - l < RETRIGGER_GUARD then Skip
            else if logged then Fire(t) else Abort
          case Missing => if logged then Fire(t) else Abort
  }

  /** A record fires exactly when it is enabled, resolves to a target no more
      than a minute in the past, and was not triggered in the last two minutes. */
  lemma FireConditions(w: Timing, now: int, logged: bool)
    ensures TickVerdict(w, now, logged).Fire? <==>
      && IsEnabled(w) && TickTarget(w, now).Some?
      && 0 <= now - TickTarget(w, now).value <= TRIGGER_WINDOW
      && (w.lastTriggered.Missing? || (w.lastTriggered.At? && now - w.lastTriggered.t >= RETRIGGER_GUARD))
      && logged
    ensures TickVerdict(w, now, logged).Fire? ==> TickVerdict(w, now, logged).target == TickTarget(w, now).value
  {
  }

  /** The record after firing at `now` for `target`: marked, then retired if
      it repeats "once" or moved exactly one day on if it repeats "daily". */
  function Rollover(w: Timing, target: int, now: int): (r: Timing)
    ensures r.lastTriggered == At(now) && r.time == w.time && r.repeat == w.repeat
    ensures w.repeat == "once" ==> !IsEnabled(r) && r.target == w.target && r.date == w.date
    ensures w.repeat == "daily" ==>
      && r.enabled == w.enabled && r.target == At(target + DAY) && r.date == Day(DayOf(target + DAY))
    ensures w.repeat != "once" && w.repeat != "daily" ==> r == w.(lastTriggered := At(now))
  {
    var marked := w.(lastTriggered := At(now));
    if w.repeat == "once" then marked.(enabled := Some(false))
    else if w.repeat == "daily" then marked.(date := Day(DayOf(target + DAY)), target := At(target + DAY))
    else marked
  }

  function AlarmVerdict(a: Alarm, now: int): Verdict {
    TickVerdict(a.when, now, a.mode.Some?)
  }

  /** `chat` says whether `send_chat_notification` can read the chat setting
      of the loaded configuration; a due reminder raises out of the tick when
      it cannot. */
  function ReminderVerdict(m: Reminder, now: int, chat: bool): Verdict {
    TickVerdict(m.when, now, m.message.Some? && chat)
  }

  /** Whether `config['chat']['enabled']` evaluates without raising: the
      configuration is a dict whose `chat` is a dict holding `enabled`. Any
      other shape raises `KeyError` or `TypeError`. */
  predicate ChatSettingReadable(config: Json) {
    && config.JObject? && "chat" in config.fields
    && config.fields["chat"].JObject? && "enabled" in config.fields["chat"].fields
  }

  /** The chat setting of the configuration `load_config` returns can be read
      by default, and also when nothing chat-related is stored. A stored
      `chat` replaces the default whole, so the setting can then be read iff
      that stored value is a dict holding `enabled`. */
  lemma ChatSettingOfLoadedConfig(stored: map<string, Json>)
    ensures ChatSettingReadable(LoadConfig(None))
    ensures "chat" !in stored ==> ChatSettingReadable(LoadConfig(Some(JObject(stored))))
    ensures "chat" in stored ==>
      (ChatSettingReadable(LoadConfig(Some(JObject(stored)))) <==>
        stored["chat"].JObject? && "enabled" in stored["chat"].fields)
  {
  }

  /** The alarm as a tick at `now` leaves it (when the tick completes). */
  function AlarmAfterTick(a: Alarm, now: int): (r: Alarm)
    ensures !AlarmVerdict(a, now).Fire? ==> r == a
    ensures AlarmVerdict(a, now).Fire? ==> r == a.(when := Rollover(a.when, AlarmVerdict(a, now).target, now))
  {
    match AlarmVerdict(a, now)
    case Fire(t) => a.(when := Rollover(a.when, t, now))
    case _ => a
  }

  function ReminderAfterTick(m: Reminder, now: int, chat: bool): (r: Reminder)
    ensures !ReminderVerdict(m, now, chat).Fire? ==> r == m
    ensures ReminderVerdict(m, now, chat).Fire? ==>
      r == m.(when := Rollover(m.when, ReminderVerdict(m, now, chat).target, now))
  {
    match ReminderVerdict(m, now, chat)
    case Fire(t) => m.(when := Rollover(m.when, t, now))
    case _ => m
  }

  function AlarmFires(now: int): Alarm -> bool {
    (a: Alarm) => AlarmVerdict(a, now).Fire?
  }

  function AlarmAfter(now: int): Alarm -> Alarm {
    (a: Alarm) => AlarmAfterTick(a, now)
  }

  function ReminderFires(now: int, chat: bool): Reminder -> bool {
    (m: Reminder) => ReminderVerdict(m, now, chat).Fire?
  }

  function ReminderAfter(now: int, chat: bool): Reminder -> Reminder {
    (m: Reminder) => ReminderAfterTick(m, now, chat)
  }

  /** The `triggered` list: the records that fire, in store order. Python
      appends the record object and then updates it, so the list shows each
      record as it is after the rollover. */
  function Fired<R>(recs: seq<R>, fires: R -> bool, after: R -> R): seq<R> {
    if |recs| == 0 then []
    else (if fires(recs[0]) then [after(recs[0])] else []) + Fired(recs[1..], fires, after)
  }

  /** The triggered list holds exactly the rolled-over records that fired. */
  lemma {:induction false} FiredMembers<R>(recs: seq<R>, fires: R -> bool, after: R -> R, x: R)
    ensures x in Fired(recs, fires, after) <==> exists i :: 0 <= i < |recs| && fires(recs[i]) && x == after(recs[i])
  {
    if |recs| > 0 {
      FiredMembers(recs[1..], fires, after, x);
      if exists i :: 0 <= i < |recs| && fires(recs[i]) && x == after(recs[i]) {
        var i :| 0 <= i < |recs| && fires(recs[i]) && x == after(recs[i]);
        if i > 0 {
          assert recs[1..][i - 1] == recs[i];
        }
      }
      if exists i :: 0 <= i < |recs[1..]| && fires(recs[1..][i]) && x == after(recs[1..][i]) {
        var i :| 0 <= i < |recs[1..]| && fires(recs[1..][i]) && x == after(recs[1..][i]);
        assert recs[i + 1] == recs[1..][i];
      }
    }
  }

  /** Firing keeps store order: the list for a concatenation is the lists of
      its parts, one after the other. */
  lemma {:induction false} FiredAppend<R>(a: seq<R>, b: seq<R>, fires: R -> bool, after: R -> R)
    ensures Fired(a + b, fires, after) == Fired(a, fires, after) + Fired(b, fires, after)
  {
    if |a| == 0 {
      assert a + b == b;
    } else {
      var head := if fires(a[0]) then [after(a[0])] else [];
      assert (a + b)[0] == a[0];
      assert (a + b)[1..] == a[1..] + b;
      FiredAppend(a[1..], b, fires, after);
      assert Fired(a + b, fires, after) == head + Fired(a[1..] + b, fires, after);
      assert head + (Fired(a[1..], fires, after) + Fired(b, fires, after))
          == (head + Fired(a[1..], fires, after)) + Fired(b, fires, after);
    }
  }

  lemma FiredSnoc<R>(recs: seq<R>, x: R, fires: R -> bool, after: R -> R)
    ensures Fired(recs + [x], fires, after) == Fired(recs, fires, after) + (if fires(x) then [after(x)] else [])
  {
    FiredAppend(recs, [x], fires, after);
  }

  /** A tick has gone through the first `i` records: those are as the tick
      leaves them, the rest as loaded, and `triggered` lists the ones that
      fired. */
  ghost predicate TickSoFar<R>(recs: seq<R>, store: seq<R>, i: int, triggered: seq<R>, fires: R -> bool, after: R -> R) {
    && 0 <= i <= |recs| == |store|
    && (forall j :: 0 <= j < i ==> store[j] == after(recs[j]))
    && (forall j :: i <= j < |recs| ==> store[j] == recs[j])
    && triggered == Fired(recs[..i], fires, after)
  }

  /** One more record: it is rolled over and listed when it fires, and is
      left as it is otherwise. */
  lemma TickStep<R>(recs: seq<R>, store: seq<R>, i: int, triggered: seq<R>, fires: R -> bool, after: R -> R)
    requires TickSoFar(recs, store, i, triggered, fires, after) && i < |recs|
    ensures fires(recs[i]) ==>
      TickSoFar(recs, store[i := after(recs[i])], i + 1, triggered + [after(recs[i])], fires, after)
    ensures !fires(recs[i]) && after(recs[i]) == recs[i] ==>
      TickSoFar(recs, store, i + 1, triggered, fires, after)
  {
    assert recs[..i + 1] == recs[..i] + [recs[i]];
    FiredSnoc(recs[..i], recs[i], fires, after);
  }

  /** What one tick returns: the store it leaves (saved or not), the records it
      triggered and whether it saved; or an exception out of the tick, in
      which case nothing is saved. */
  datatype TickOutcome<R> = Ticked(store: seq<R>, triggered: seq<R>, saved: bool) | TickRaised

  /** `check_alarms()` at instant `now` over the loaded `alarms`. The wake
      sequence that each fired alarm starts is not modelled; its exceptions
      are caught, so it never changes the outcome. */
  method CheckAlarms(alarms: seq<Alarm>, now: int) returns (r: TickOutcome<Alarm>)
    ensures r.TickRaised? <==> exists i :: 0 <= i < |alarms| && AlarmVerdict(alarms[i], now).Abort?
    ensures r.Ticked? ==> |r.store| == |alarms|
    ensures r.Ticked? ==> forall i :: 0 <= i < |alarms| ==> r.store[i] == AlarmAfterTick(alarms[i], now)
    ensures r.Ticked? ==> r.triggered == Fired(alarms, AlarmFires(now), AlarmAfter(now))
    ensures r.Ticked? ==> (r.saved <==> r.triggered != [])
  {
    var store := alarms;
    var triggered: seq<Alarm> := [];
    var modified := false;
    var i := 0;
    assert alarms[..0] == [];
    while i < |store|
      invariant TickSoFar(alarms, store, i, triggered, AlarmFires(now), AlarmAfter(now))
      invariant forall j :: 0 <= j < i ==> !AlarmVerdict(alarms[j], now).Abort?
      invariant modified <==> triggered != []
    {
      var alarm := store[i];
      ghost var verdict := AlarmVerdict(alarm, now);
      assert alarm == alarms[i];
      TickStep(alarms, store, i, triggered, AlarmFires(now), AlarmAfter(now));
      assert AlarmFires(now)(alarm) == verdict.Fire? && AlarmAfter(now)(alarm) == AlarmAfterTick(alarm, now);
      var target := TickTarget(alarm.when, now);
      if IsEnabled(alarm.when) && target.Some? && 0 <= now - target.value <= TRIGGER_WINDOW {
        var suppressed := false;
        if alarm.when.lastTriggered != Missing {
          if alarm.when.lastTriggered.Garbled? {
            assert verdict.Abort?;
            return TickRaised;
          }
          suppressed := now - alarm.when.lastTriggered.t < RETRIGGER_GUARD;
        }
        if !suppressed {
          if alarm.mode.None? {
            assert verdict.Abort?;
            return TickRaised;
          }
          assert verdict == Fire(target.value);
          var fired := alarm.(when := Rollover(alarm.when, target.value, now));
          triggered := triggered + [fired];
          store := store[i := fired];
          modified := true;
        } else {
          assert verdict.Skip?;
        }
      } else {
        assert verdict.Skip?;
      }
      i := i + 1;
    }
    assert alarms[..i] == alarms;
    return Ticked(store, triggered, modified);
  }

  /** `check_reminders()` at instant `now`, with `config` the configuration
      `load_config` returns; the same algorithm over the reminder store. The
      sound and speech it starts catch their own exceptions and are not
      modelled. The chat notification is not sent, but its read of the chat
      setting, outside any `try`, raises out of the tick when it fails. */
  method CheckReminders(reminders: seq<Reminder>, now: int, config: Json) returns (r: TickOutcome<Reminder>)
    ensures r.TickRaised? <==>
      exists i :: 0 <= i < |reminders| && ReminderVerdict(reminders[i], now, ChatSettingReadable(config)).Abort?
    ensures r.Ticked? ==> |r.store| == |reminders|
    ensures r.Ticked? ==> forall i :: 0 <= i < |reminders| ==>
      r.store[i] == ReminderAfterTick(reminders[i], now, ChatSettingReadable(config))
    ensures r.Ticked? ==>
      r.triggered == Fired(reminders, ReminderFires(now, ChatSettingReadable(config)), ReminderAfter(now, ChatSettingReadable(config)))
    ensures r.Ticked? ==> (r.saved <==> r.triggered != [])
  {
    var chat := ChatSettingReadable(config);
    var store := reminders;
    var triggered: seq<Reminder> := [];
    var modified := false;
    var i := 0;
    assert reminders[..0] == [];
    while i < |store|
      invariant TickSoFar(reminders, store, i, triggered, ReminderFires(now, chat), ReminderAfter(now, chat))
      invariant forall j :: 0 <= j < i ==> !ReminderVerdict(reminders[j], now, chat).Abort?
      invariant modified <==> triggered != []
    {
      var reminder := store[i];
      ghost var verdict := ReminderVerdict(reminder, now, chat);
      assert reminder == reminders[i];
      TickStep(reminders, store, i, triggered, ReminderFires(now, chat), ReminderAfter(now, chat));
      assert ReminderFires(now, chat)(reminder) == verdict.Fire? && ReminderAfter(now, chat)(reminder) == ReminderAfterTick(reminder, now, chat);
      var target := TickTarget(reminder.when, now);
      if IsEnabled(reminder.when) && target.Some? && 0 <= now - target.value <= TRIGGER_WINDOW {
        var suppressed := false;
        if reminder.when.lastTriggered != Missing {
          if reminder.when.lastTriggered.Garbled? {
            assert verdict.Abort?;
            return TickRaised;
          }
          suppressed := now - reminder.when.lastTriggered.t < RETRIGGER_GUARD;
        }
        if !suppressed {
          if reminder.message.None? || !chat {
            assert verdict.Abort?;
            return TickRaised;
          }
          assert verdict == Fire(target.value);
          var fired := reminder.(when := Rollover(reminder.when, target.value, now));
          triggered := triggered + [fired];
          store := store[i := fired];
          modified := true;
        } else {
          assert verdict.Skip?;
        }
      } else {
        assert verdict.Skip?;
      }
      i := i + 1;
    }
    assert reminders[..i] == reminders;
    return Ticked(store, triggered, modified);
  }

  // ---------------------------------------------------------------------------
  // Properties of one tick and of consecutive ticks
  // ---------------------------------------------------------------------------

  /** The due window is closed at both ends: a minute late still fires, a
      minute and one second late does not, and nothing fires early. */
  lemma DueWindowEdges(a: Alarm, now: int)
    requires IsEnabled(a.when) && a.mode.Some? && a.when.lastTriggered == Missing
    ensures AlarmVerdict(a.(when := a.when.(target := At(now - 60))), now) == Fire(now - 60)
    ensures AlarmVerdict(a.(when := a.when.(target := At(now))), now) == Fire(now)
    ensures AlarmVerdict(a.(when := a.when.(target := At(now - 61))), now) == Skip
    ensures AlarmVerdict(a.(when := a.when.(target := At(now + 1))), now) == Skip
  {
  }

  /** A record that does not parse is skipped and left as it is. */
  lemma UnparsableIsSkipped(a: Alarm, now: int)
    requires TickTarget(a.when, now).None?
    ensures AlarmVerdict(a, now) == Skip && AlarmAfterTick(a, now) == a
  {
  }

  /** Whatever its repeat policy, a record that fired at `now` does not fire
      again in any tick less than two minutes later. */
  lemma NoRefireWithinGuard(a: Alarm, now: int, later: int)
    requires AlarmVerdict(a, now).Fire?
    requires later < now + RETRIGGER_GUARD
    ensures AlarmVerdict(AlarmAfterTick(a, now), later) == Skip
  {
  }

  /** A "once" alarm that fired is disabled and never fires again. */
  lemma OnceIsRetired(a: Alarm, now: int, later: int)
    requires AlarmVerdict(a, now).Fire? && a.when.repeat == "once"
    ensures !IsEnabled(AlarmAfterTick(a, now).when)
    ensures AlarmVerdict(AlarmAfterTick(a, now), later) == Skip
  {
  }

  /** A "daily" alarm that fired for target T now targets T plus one day, at
      the same time of day, and fires again exactly one day later. */
  lemma DailyMovesOneDay(a: Alarm, now: int)
    requires AlarmVerdict(a, now).Fire? && a.when.repeat == "daily"
    ensures
      var t := AlarmVerdict(a, now).target;
      var b := AlarmAfterTick(a, now);
      && b.when.target == At(t + DAY) && (t + DAY) % DAY == t % DAY
      && AlarmVerdict(b, now + DAY) == Fire(t + DAY)
  {
  }

  /** Two ticks less than two minutes apart never fire the same alarm twice:
      what the first fired, the second skips. */
  lemma ConsecutiveTicksFireOnce(alarms: seq<Alarm>, store: seq<Alarm>, now: int, later: int)
    requires |store| == |alarms|
    requires forall i :: 0 <= i < |alarms| ==> store[i] == AlarmAfterTick(alarms[i], now)
    requires later < now + RETRIGGER_GUARD
    ensures forall i :: 0 <= i < |alarms| && AlarmVerdict(alarms[i], now).Fire? ==>
      AlarmVerdict(store[i], later) == Skip
  {
    forall i | 0 <= i < |alarms| && AlarmVerdict(alarms[i], now).Fire?
      ensures AlarmVerdict(store[i], later) == Skip
    {
      NoRefireWithinGuard(alarms[i], now, later);
    }
  }

  /** A stored `"chat": {}` lacks `enabled` and replaces the default whole, so
      a reminder that would fire makes the whole reminder tick raise, and
      nothing is stamped or saved. */
  lemma EmptyChatSettingAbortsReminderTick(m: Reminder, now: int)
    requires ReminderVerdict(m, now, true).Fire?
    ensures var config := LoadConfig(Some(JObject(map["chat" := JObject(map[])])));
      ReminderVerdict(m, now, ChatSettingReadable(config)) == Abort
  {
    ChatSettingOfLoadedConfig(map["chat" := JObject(map[])]);
  }

  /** The scenario of an alarm set for 07:00 at 07:05 on day D: it targets
      07:00 on day D+1, a tick at 07:00:30 that day fires it, and a tick 30
      seconds later does not. */
  lemma MorningAlarmScenario(d: int, id: string)
    ensures
      var added := AddAlarm([], "07:00", "normal", "", "once", NoDate, d * DAY + 7 * HOUR + 5 * MINUTE, id);
      var tick := (d + 1) * DAY + 7 * HOUR + 30;
      && added.Added?
      && AlarmVerdict(added.record, tick) == Fire((d + 1) * DAY + 7 * HOUR)
      && AlarmVerdict(AlarmAfterTick(added.record, tick), tick + 30) == Skip
      && !IsEnabled(AlarmAfterTick(added.record, tick).when)
  {
    AddAlarmAfterItsTimeGoesToTomorrow([], d, id);
  }
}
