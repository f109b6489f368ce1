# Wake system and smart-home control, modelled in Dafny

This project models three Python scripts of a personal assistant's skills.

- The wake daemon (`skills/shila-wake/scripts/wake_system.py`) has these parts:
  - the alarm and reminder stores: add, delete and toggle;
  - `calculate_alarm_datetime`, which resolves an "HH:MM" time and an optional date;
  - the scheduler tick (`check_alarms`, `check_reminders`), which fires records due within a 60-second window and suppresses re-firing for 120 seconds;
  - the daily or one-time rollover of a record that fired;
  - `get_next_alarm`;
  - `load_config`.
- The tray app (`skills/shila-wake/scripts/desktop_app.py`) is modelled as its `AppState` object. It covers:
  - the shown next alarm, picked from "HH:MM" alone with the strict `strptime` parser;
  - snoozing and stopping;
  - the scheduler loop's one refire per snooze.
- The Tuya controller (`skills/smarthome-tuya/scripts/tuya_control.py`) is a class over three things:
  - the device records;
  - the remembered AC states;
  - the scenes file.

  Its operations are:
  - capability merging and lookup;
  - device lookup by id, exact name, or name fragment;
  - `turn_on`/`turn_off`, with the IR path and the command variations, and the switch-code rewrite when a fallback variation is accepted;
  - group control;
  - AC control;
  - scene capture, activation, listing and deletion.

Time is an integer count of seconds. A day is 86400 seconds, and a calendar date is a day number. Time zones, DST and sub-second precision are not modelled.

The files and the storage are modelled as values passed in and returned. The Tuya cloud is an oracle, a `Cloud` value of three functions:
- the commands it accepts;
- the IR states it accepts;
- the status it reports.

Python's behaviour is written out where it matters:
- `int()` of a string;
- `str.split`;
- the strict `strptime("%H:%M")`;
- truthiness of `.get(...)`;
- `1 == True` in the command-variation skip;
- `int()` of a float quotient, which truncates toward zero;
- dict insertion order, as sequences with distinct keys;
- ASCII `.lower()`;
- substring `in`.

Modules:
- `Common`: Option, a JSON value, string helpers and the first-index search.
- `Clock`: instants, "HH:MM" parsing and formatting, `calculate_alarm_datetime`.
- `WakeRecords`: records, add, delete, toggle, `load_config`.
- `WakeTick`: the scheduler tick.
- `WakeNext`: `get_next_alarm`.
- `Tray`: the tray app.
- `TuyaLookup`: the controller's pure parts.
- `Tuya`: the `TuyaController` class.

## Model

| member | source | states |
|---|---|---|
| Clock.DayStart | skills/shila-wake/scripts/wake_system.py:159 | midnight of an instant's day: a multiple of a day, at most the instant and less than a day before it |
| Clock.DayOf | skills/shila-wake/scripts/wake_system.py:200 | the calendar date of an instant is the day whose span contains it |
| Clock.SplitNoSep | skills/shila-wake/scripts/wake_system.py:151 | a string without the separator splits into itself alone |
| Clock.SplitAt | skills/shila-wake/scripts/wake_system.py:151 | splitting at the first separator gives the part before it, then the split of the rest |
| Clock.ParseClockStrict | skills/shila-wake/scripts/desktop_app.py:461-463 | `strptime("%H:%M")` accepts only a real hour 0..23 and minute 0..59 |
| Clock.StrictImpliesLenient | skills/shila-wake/scripts/desktop_app.py:461-463 | whatever the tray's strict parser accepts, the daemon's `split`/`int` reading accepts with the same hour and minute |
| Clock.TwoDigitsValue | skills/shila-wake/scripts/wake_system.py:184-187 | a zero-padded two-digit field reads back as its number |
| Clock.ParseFormatClock | skills/shila-wake/scripts/wake_system.py:184-187 | both parsers read a formatted "HH:MM" back unchanged, so a formatted time passes `add_alarm`'s validation |
| Clock.Offset | skills/shila-wake/scripts/wake_system.py:156 | HH:MM:00 lies within the day |
| Clock.CalculateAlarmDatetime | skills/shila-wake/scripts/wake_system.py:140-166 | the time resolves iff it parses to a real time of day and the date (if any) names a day. With a date, the result is that day at HH:MM. Without one, it is the first HH:MM strictly after now, within one day, at that time of day |
| Clock.OneInstantPerDay | skills/shila-wake/scripts/wake_system.py:158-166 | within any one-day window an instant is fixed by its time of day, so the undated result is unique |
| Clock.TimeOfDayKept | skills/shila-wake/scripts/wake_system.py:158-166 | today at HH:MM and tomorrow at HH:MM both have that time of day |
| Clock.ExplicitDateMayBePast | skills/shila-wake/scripts/wake_system.py:153-156 | an explicit date is used as given, even when it lies in the past |
| WakeRecords.FreshTiming | skills/shila-wake/scripts/wake_system.py:197-209 | a new record is enabled, never triggered, and its target and date agree |
| WakeRecords.AddAlarm | skills/shila-wake/scripts/wake_system.py:169-222 | a time that does not parse is rejected with the store unchanged. A bad date raises. Otherwise exactly one enabled, untriggered alarm is appended, carrying the resolved target and its date |
| WakeRecords.AddReminder | skills/shila-wake/scripts/wake_system.py:355-385 | never rejected without raising. It raises iff the time or date does not resolve; otherwise one reminder is appended at the resolved instant |
| WakeRecords.AddAlarmAfterItsTimeGoesToTomorrow | skills/shila-wake/scripts/wake_system.py:193-201 | an undated alarm added after its time of day targets that time tomorrow |
| Common.RemoveWhereShape | skills/shila-wake/scripts/wake_system.py:254 | the filtering comprehension keeps exactly the records not dropped, and loses none iff no record is dropped |
| WakeRecords.DeleteAlarm | skills/shila-wake/scripts/wake_system.py:245-262 | delete-all empties the store and reports success. Otherwise success iff some record has the id. On success the new store is the old one with every record of that id dropped, the others kept in order and with their multiplicity. On failure nothing changes |
| WakeRecords.DeleteReminder | skills/shila-wake/scripts/wake_system.py:407-419 | success iff some reminder has the id. On success exactly the others survive, in order and with their multiplicity. On failure nothing changes |
| WakeRecords.DeleteAlarmKeepsOrder | skills/shila-wake/scripts/wake_system.py:254 | the filter keeps store order: deleting from a concatenation is deleting from each part |
| WakeRecords.Toggled | skills/shila-wake/scripts/wake_system.py:271-274 | no flag flips the enabled state; a flag sets it; every other field is kept |
| WakeRecords.ToggleTwice | skills/shila-wake/scripts/wake_system.py:271-272 | flipping a record twice restores whether it is enabled, though a missing flag comes back as an explicit `true` |
| WakeRecords.ToggleTwiceStore | skills/shila-wake/scripts/wake_system.py:265-281 | after one toggle without a value, the same record is still the first with its id, so a second toggle of that id flips it back: the store returns with every enabled state and every other field as before |
| WakeRecords.ToggleAlarm | skills/shila-wake/scripts/wake_system.py:265-281 | found iff some alarm has the id. Only the first such alarm is toggled; nothing changes when none is found |
| WakeRecords.LoadConfig | skills/shila-wake/scripts/wake_system.py:98-110 | a missing file gives the defaults. A stored object is merged over the defaults shallowly, stored keys winning. A stored value that is not an object is kept as it is iff `in` finds every default key in it; otherwise the first assignment raises and the defaults are used |
| WakeRecords.LoadConfigIsShallow | skills/shila-wake/scripts/wake_system.py:103-107 | a stored nested setting replaces the default whole, and an unstored key keeps its default |
| WakeTick.TickTarget | skills/shila-wake/scripts/wake_system.py:607-622 | a stored target wins. Without one, a valid time and date give that day at HH:MM, and with no date, today at HH:MM. Anything unparsable gives nothing |
| WakeTick.FireConditions | skills/shila-wake/scripts/wake_system.py:603-650 | a record fires iff all of these hold: it is enabled; it resolves to a target at most 60 seconds ago and not in the future; it was not triggered less than 120 seconds ago; its log key is present. The fired target is the resolved one |
| WakeTick.Rollover | skills/shila-wake/scripts/wake_system.py:652-663 | a fired record is stamped with now. A "once" record is then disabled. A "daily" record moves its target and date exactly one day on. Any other repeat keeps the rest |
| WakeTick.AlarmAfterTick | skills/shila-wake/scripts/wake_system.py:650-663 | an alarm that does not fire is unchanged; one that fires is rolled over from its resolved target |
| WakeTick.ReminderAfterTick | skills/shila-wake/scripts/wake_system.py:720-728 | the same rollover for reminders |
| WakeTick.ChatSettingOfLoadedConfig | skills/shila-wake/scripts/wake_system.py:487-491 | the chat setting that `send_chat_notification` reads can be read in the default configuration and whenever no `chat` is stored. A stored `chat` replaces the default whole, so the setting can then be read iff that value is a dict holding `enabled` |
| WakeTick.FiredMembers | skills/shila-wake/scripts/wake_system.py:649 | the triggered list holds exactly the rolled-over records that fired |
| WakeTick.FiredAppend | skills/shila-wake/scripts/wake_system.py:649 | the triggered list keeps store order across a concatenation |
| WakeTick.FiredSnoc | skills/shila-wake/scripts/wake_system.py:649 | one more record adds itself to the triggered list iff it fires |
| WakeTick.CheckAlarms | skills/shila-wake/scripts/wake_system.py:594-671 | the tick raises iff some alarm reaches an unreadable `last_triggered` or a missing `mode`. Otherwise every alarm is left as its own tick leaves it, the triggered list is the fired alarms in order, and the store is saved iff something fired |
| WakeTick.CheckReminders | skills/shila-wake/scripts/wake_system.py:674-733 | the same for reminders, with `message` as the log key. A reminder that would fire also raises out of the tick when the loaded configuration's `chat.enabled` cannot be read, since `send_chat_notification` reads it outside any `try`; then nothing is stamped or saved |
| WakeTick.EmptyChatSettingAbortsReminderTick | skills/shila-wake/scripts/wake_system.py:714-720 | with a stored `"chat": {}`, a reminder that would otherwise fire makes the reminder tick raise |
| WakeTick.DueWindowEdges | skills/shila-wake/scripts/wake_system.py:624-631 | the due window is closed at both ends: now and 60 seconds ago fire, while 61 seconds ago and the future do not |
| WakeTick.UnparsableIsSkipped | skills/shila-wake/scripts/wake_system.py:620-622 | a record that does not resolve is skipped and left unchanged |
| WakeTick.NoRefireWithinGuard | skills/shila-wake/scripts/wake_system.py:633-638 | a record that fired does not fire again within 120 seconds, whatever its repeat |
| WakeTick.OnceIsRetired | skills/shila-wake/scripts/wake_system.py:657-658 | a fired "once" alarm is disabled and never fires again |
| WakeTick.DailyMovesOneDay | skills/shila-wake/scripts/wake_system.py:659-663 | a fired "daily" alarm next targets the same time one day later, with that day as its date |
| WakeTick.ConsecutiveTicksFireOnce | skills/shila-wake/scripts/wake_system.py:633-638 | two ticks less than two minutes apart never fire the same alarm twice |
| WakeTick.MorningAlarmScenario | skills/shila-wake/scripts/wake_system.py:603-663 | a "once" alarm for 07:00, added with `add_alarm` at 07:05 on day D, fires at a tick at 07:00:30 on day D+1, is skipped by a tick 30 seconds later, and is disabled |
| WakeNext.NextTarget | skills/shila-wake/scripts/wake_system.py:297-310 | reads a record like the tick does, except that an undated, untargeted record resolves into the coming day |
| WakeNext.NextStepOf | skills/shila-wake/scripts/wake_system.py:292-320 | a candidate is enabled and strictly in the future. A fired "once" alarm is never a candidate. Only a daily alarm with an unreadable time raises |
| WakeNext.GetNextAlarm | skills/shila-wake/scripts/wake_system.py:284-331 | raises iff some alarm's recomputation raises, and finds nothing iff no alarm is a candidate. Otherwise it returns the first alarm in store order with the earliest future occurrence, and the seconds left until it |
| WakeNext.DailyPastTargetRollsForward | skills/shila-wake/scripts/wake_system.py:317-318 | a daily alarm whose target has passed is reported at its time of day within the coming day |
| WakeNext.FiredOnceIsNeverNext | skills/shila-wake/scripts/wake_system.py:313-314 | once the tick has fired a "once" alarm, it is never the next alarm |
| WakeNext.FiredDailyIsNextTomorrow | skills/shila-wake/scripts/wake_system.py:659-663 | a daily alarm just fired is next due exactly one day after the occurrence that fired |
| Tray.ClockOccurrence | skills/shila-wake/scripts/desktop_app.py:461-465 | today at HH:MM, or tomorrow if that is not after now: strictly after now, within a day, at that time of day |
| Tray.TrayAgreesWithDaemon | skills/shila-wake/scripts/desktop_app.py:461-465 | for every time the tray can read, the tray and `calculate_alarm_datetime` pick the same instant |
| Tray.TrayStepOf | skills/shila-wake/scripts/desktop_app.py:451-465 | disabled alarms are inactive. An enabled alarm with an unreadable time raises. Any other enabled alarm is due within the next day |
| Tray.PickNextByClock | skills/shila-wake/scripts/desktop_app.py:451-474 | raises iff an enabled alarm's time is unreadable, and picks nothing iff no alarm is enabled. Otherwise it picks the first of the enabled alarms due soonest |
| Tray.SnoozeMinutes | skills/shila-wake/scripts/desktop_app.py:403-404 | `snooze_minutes` defaults to 10; a stored value must be a number, or the handler raises |
| Tray.DefaultSnoozeIsTenMinutes | skills/shila-wake/scripts/desktop_app.py:403-404 | with the default configuration a snooze lasts ten minutes |
| Tray.SnoozeCheck | skills/shila-wake/scripts/desktop_app.py:489-494 | before the deadline nothing changes. At or after it the deadline is cleared, and the shown alarm's mode (default "normal") is refired iff an alarm is shown |
| Tray.SnoozeRefiresOnce | skills/shila-wake/scripts/desktop_app.py:489-494 | after the check that refired, no later check refires until the next snooze |
| Tray.SnoozeDeadline | skills/shila-wake/scripts/desktop_app.py:401-406 | while the scheduler loop runs, a snooze of m minutes refires nothing before m minutes have passed, and refires the shown alarm from then on |
| Tray.AppState.constructor | skills/shila-wake/scripts/desktop_app.py:58-64 | the app starts running, with no next alarm and no snooze |
| Tray.AppState.Snooze | skills/shila-wake/scripts/desktop_app.py:401-406 | sets the deadline to now plus the configured minutes; on an unusable setting nothing changes |
| Tray.AppState.StopAlarm | skills/shila-wake/scripts/desktop_app.py:409-412 | clears the snooze and nothing else |
| Tray.AppState.Quit | skills/shila-wake/scripts/desktop_app.py:421-424 | stops the loop and nothing else |
| Tray.AppState.UpdateNextAlarm | skills/shila-wake/scripts/desktop_app.py:449-474 | fails iff some enabled alarm's time is unreadable, and then the shown alarm is kept. On success the shown alarm is none iff no alarm is enabled. Otherwise it is the first enabled stored alarm due soonest, and no alarm is due earlier |
| Tray.AppState.CheckSnooze | skills/shila-wake/scripts/desktop_app.py:488-494 | the new deadline and the refired mode are those of `SnoozeCheck` |
| TuyaLookup.GetCapabilityCode | skills/smarthome-tuya/scripts/tuya_control.py:265-271 | returns the first code, in priority order, that some capability has; returns none iff no listed code is present |
| TuyaLookup.DetectSwitchCode | skills/smarthome-tuya/scripts/tuya_control.py:252-258 | the detected switch code is the first known switch code, in priority order, that the device has; there is none iff no switch code is present |
| TuyaLookup.HasCapabilityIffCode | skills/smarthome-tuya/scripts/tuya_control.py:260-271 | `_has_capability` holds iff `_get_capability_code` finds a code, iff some listed code is present |
| TuyaLookup.SwitchLedWins | skills/smarthome-tuya/scripts/tuya_control.py:39-42 | a light with both `switch_led` and `switch_1` uses `switch_led` |
| TuyaLookup.FirstCode | skills/smarthome-tuya/scripts/tuya_control.py:236 | finds the first capability with a code, or none iff there is none |
| TuyaLookup.StatusEntries | skills/smarthome-tuya/scripts/tuya_control.py:224-231 | every status property becomes a read-only capability, in order |
| TuyaLookup.MergeFunctionsInv | skills/smarthome-tuya/scripts/tuya_control.py:233-245 | merging functions keeps the status entries in place and appends only codes not seen before. Every function code ends up read-write. A status entry becomes read-write iff it is the first with its code and some function names it |
| TuyaLookup.MergedCapabilitiesShape | skills/smarthome-tuya/scripts/tuya_control.py:224-245 | the merged list starts with the status entries and covers every function code as read-write |
| TuyaLookup.MergeCapabilities | skills/smarthome-tuya/scripts/tuya_control.py:220-247 | the nested merge loops compute exactly the merged capability list |
| TuyaLookup.GetDeviceSpec | skills/smarthome-tuya/scripts/tuya_control.py:277-298 | an empty target finds nothing. An exact id wins. Otherwise it returns the first case-insensitive exact name, otherwise the first name containing the target, and nothing iff none matches |
| TuyaLookup.GetDeviceById | skills/smarthome-tuya/scripts/tuya_control.py:284-286 | with distinct ids, a device's id finds that device |
| TuyaLookup.SkippedVariations | skills/smarthome-tuya/scripts/tuya_control.py:333-335 | the skip test drops the first and the integer variation (`1 == True`), and the fallback code equal to the device's own; only the others are sent |
| TuyaLookup.SetSwitchCode | skills/smarthome-tuya/scripts/tuya_control.py:340-341 | only the record with the id gets the new switch code |
| TuyaLookup.IrBlaster | skills/smarthome-tuya/scripts/tuya_control.py:507-512 | returns the id of the first `wnykq` device, and none iff there is none |
| TuyaLookup.ModeNumber | skills/smarthome-tuya/scripts/tuya_control.py:556-559 | the mode number is 0..4; an unknown name gives 0 |
| TuyaLookup.FanNumber | skills/smarthome-tuya/scripts/tuya_control.py:560-563 | the fan number is 0..3; an unknown name gives 0 |
| TuyaLookup.SettingNamesIgnoreCase | skills/smarthome-tuya/scripts/tuya_control.py:556-563 | mode and fan names are matched ignoring case |
| TuyaLookup.ClampTemperature | skills/smarthome-tuya/scripts/tuya_control.py:554-555 | the temperature is clamped to 16..30, keeping values already in range |
| TuyaLookup.ApplyAcSettings | skills/smarthome-tuya/scripts/tuya_control.py:552-563 | each given setting replaces its field (power as 1/0, temperature clamped, names mapped); absent settings keep theirs |
| TuyaLookup.AcSettingsInRange | skills/smarthome-tuya/scripts/tuya_control.py:552-563 | applying settings keeps an AC state in range, and applying the same settings twice changes nothing more |
| TuyaLookup.DefaultAcInRange | skills/smarthome-tuya/scripts/tuya_control.py:537-541 | the default AC state is in range |
| TuyaLookup.StatusMapKeys | skills/smarthome-tuya/scripts/tuya_control.py:697-698 | the state map's keys are exactly the status items' codes, a missing code read as empty |
| TuyaLookup.StatusMapValues | skills/smarthome-tuya/scripts/tuya_control.py:697-698 | each code maps to the value of the last status item with that code |
| TuyaLookup.CapturedBrightness | skills/smarthome-tuya/scripts/tuya_control.py:711-723 | the captured percentage is within 0..100 |
| TuyaLookup.CapturedBrightnessEnds | skills/smarthome-tuya/scripts/tuya_control.py:716-722 | each scale's raw minimum captures 0% and its maximum captures 100% |
| TuyaLookup.CapturedBrightnessClamped | skills/smarthome-tuya/scripts/tuya_control.py:716-722 | `v2` readings at or below 10 capture 0%, and those at or above 1000 capture 100% |
| TuyaLookup.V2InBrightValueV2 | skills/smarthome-tuya/scripts/tuya_control.py:716 | `bright_value_v2` is read on the 10..1000 scale |
| TuyaLookup.NoV2InBrightValue | skills/smarthome-tuya/scripts/tuya_control.py:716 | `bright_value` is read on the 25..255 scale |
| TuyaLookup.CapturedBrightnessMonotone | skills/smarthome-tuya/scripts/tuya_control.py:716-722 | a brighter raw value never captures a lower percentage |
| TuyaLookup.FirstKey | skills/smarthome-tuya/scripts/tuya_control.py:712-713 | returns a listed code present in the state map, or none iff no listed code is present |
| TuyaLookup.CaptureDevice | skills/smarthome-tuya/scripts/tuya_control.py:693-731 | the device is skipped iff its brightness value is not a number. A captured action names the device by name and id. It is "on" iff the switch reading (the device's switch code, else `switch`, else false) is truthy, and "off" otherwise. It carries a brightness iff a brightness code is reported, and that brightness is the `CapturedBrightness` of the first such code's reading. It carries the colour iff a colour code is reported, copied from the first such code |
| TuyaLookup.FindScene | skills/smarthome-tuya/scripts/tuya_control.py:756-760 | finds the first scene whose name matches ignoring case, or none iff none does |
| TuyaLookup.PutScene | skills/smarthome-tuya/scripts/tuya_control.py:740-746 | storing a scene keeps names distinct, holds the new entry, and keeps every entry under another name |
| TuyaLookup.CapturedSceneIsFound | skills/smarthome-tuya/scripts/tuya_control.py:740-760 | a scene just stored is found by its name, unless another scene differs from it only in case |
| TuyaLookup.RecaptureInOtherCaseIsShadowed | skills/smarthome-tuya/scripts/tuya_control.py:740-760 | recapturing "Morning" as "morning" adds a second entry, and lookups keep finding the old one |
| TuyaLookup.RemoveScene | skills/smarthome-tuya/scripts/tuya_control.py:815-816 | deleting removes one entry |
| TuyaLookup.RemoveSceneKeepsOthers | skills/smarthome-tuya/scripts/tuya_control.py:815-816 | after deletion, exactly the entries with other names remain, still distinct |
| TuyaLookup.ListScenes | skills/smarthome-tuya/scripts/tuya_control.py:793-803 | one summary per stored scene, in order |
| TuyaLookup.CapturedSceneIsListed | skills/smarthome-tuya/scripts/tuya_control.py:793-803 | a captured scene is listed with its name, action count and creation time |
| TuyaLookup.CategoryTargets | skills/smarthome-tuya/scripts/tuya_control.py:613 | a known group name maps to its categories; any other name selects its own lower-cased category |
| TuyaLookup.UnknownCategorySelectsItself | skills/smarthome-tuya/scripts/tuya_control.py:613-620 | an unknown group name selects exactly the devices whose category equals it ignoring case |
| Tuya.FirstVariation | skills/smarthome-tuya/scripts/tuya_control.py:332-342 | returns the first variation that differs from the primary and is accepted; returns none iff no such variation exists |
| Tuya.TryOutcome | skills/smarthome-tuya/scripts/tuya_control.py:323-345 | the primary is accepted iff it is sent. Nothing is accepted iff neither the primary nor any differing variation is. Without a cloud nothing is accepted |
| Tuya.TurnResult | skills/smarthome-tuya/scripts/tuya_control.py:351-413 | an unknown target or a missing cloud fails and changes nothing. Only the found device's switch code can change, and a failure changes nothing |
| Tuya.SetSwitchCodeSteps | skills/smarthome-tuya/scripts/tuya_control.py:340-341 | rewriting the remembered switch code of the device with that (unique) id to a fallback code changes no other field and no other device |
| Tuya.TurnKeepsSwitches | skills/smarthome-tuya/scripts/tuya_control.py:336-342 | a switch code changes only to `switch_1` or `switch`, so no device loses its switch, and ids stay distinct |
| Tuya.SwitchCodesOnlyTrans | skills/smarthome-tuya/scripts/tuya_control.py:340-341 | successive switch-code rewrites compose |
| Tuya.FallbackRewritesSwitchCode | skills/smarthome-tuya/scripts/tuya_control.py:369-378 | a light whose `switch_led` is rejected but whose `switch_1` is accepted is switched, and its code becomes `switch_1` |
| Tuya.GroupSkip | skills/smarthome-tuya/scripts/tuya_control.py:615-620 | a device out of scope or without a switch code is passed over |
| Tuya.GroupVisit | skills/smarthome-tuya/scripts/tuya_control.py:622-637 | a switched device lands in exactly one of the affected and failed lists |
| Tuya.GroupCounts | skills/smarthome-tuya/scripts/tuya_control.py:590-609 | each considered device is counted once, and a group command succeeds only if some device in scope has a switch |
| Tuya.CapturedActionsShape | skills/smarthome-tuya/scripts/tuya_control.py:688-731 | a capture has at most one action per device; each action names a store device, is on or off, and carries a brightness in 0..100 |
| Tuya.SceneActions | skills/smarthome-tuya/scripts/tuya_control.py:756-768 | a scene is found iff a name matches and the scene is not empty; it runs the actions of the first match |
| Tuya.CapturedSceneActivates | skills/smarthome-tuya/scripts/tuya_control.py:740-768 | a scene just captured is what activation runs, with exactly the captured actions |
| Tuya.TuyaController.constructor | skills/smarthome-tuya/scripts/tuya_control.py:505 | starts with the given devices and scenes and no remembered AC state |
| Tuya.TuyaController.TryCommandVariations | skills/smarthome-tuya/scripts/tuya_control.py:323-345 | succeeds iff the primary or a differing variation is accepted. Only an accepted variation rewrites the device's switch code |
| Tuya.TuyaController.SetPower | skills/smarthome-tuya/scripts/tuya_control.py:351-413 | the result and the new device records are those of `TurnResult`; no switch is lost |
| Tuya.GroupFrom | skills/smarthome-tuya/scripts/tuya_control.py:615-637 | the group loop folded over the devices: both lists and the final records are what the successive `TurnResult` answers give |
| Tuya.GroupWithoutCloud | skills/smarthome-tuya/scripts/tuya_control.py:615-637 | without a cloud connection nothing is affected, every device in scope with a switch is listed as failed in store order, and no record changes |
| Tuya.TuyaController.ControlGroup | skills/smarthome-tuya/scripts/tuya_control.py:585-639 | the affected list, the failed list and the new records are exactly those of `GroupFrom`, the loop of per-device `TurnResult` answers. Every device in scope that had a switch is considered once, in order, and success holds iff some device was affected |
| Tuya.TuyaController.ControlAll | skills/smarthome-tuya/scripts/tuya_control.py:585-609 | the group outcome over all devices, with both lists and the new records given by `GroupFrom`, that is, by the cloud's answers |
| Tuya.TuyaController.ControlByCategory | skills/smarthome-tuya/scripts/tuya_control.py:611-639 | the group outcome over the category's targets, with both lists and the new records given by `GroupFrom`, that is, by the cloud's answers |
| Tuya.TuyaController.ControlAc | skills/smarthome-tuya/scripts/tuya_control.py:543-579 | returns not-found or not-an-AC without changes. Otherwise the AC's remembered state (defaults on first use) gets the settings, even if sending fails, and the result says whether the IR send was accepted |
| Tuya.TuyaController.CaptureScene | skills/smarthome-tuya/scripts/tuya_control.py:683-749 | fails without a cloud. Fails without saving when no device is captured. Otherwise it stores the captured actions under the name and reports their count |
| Tuya.SceneFrom | skills/smarthome-tuya/scripts/tuya_control.py:768-787 | the action loop folded over the actions, each taken against the records then in force; every action is listed at least once and at most twice |
| Tuya.SceneFromNames | skills/smarthome-tuya/scripts/tuya_control.py:768-787 | whatever each action does, the loop lists only device names of the scene, and an action without a device name is listed as failed |
| Tuya.SceneWithoutCloud | skills/smarthome-tuya/scripts/tuya_control.py:768-787 | without a cloud connection nothing is affected, every action's device is listed as failed in scene order, and no record changes |
| Tuya.TuyaController.RunAction | skills/smarthome-tuya/scripts/tuya_control.py:769-787 | one action: the success of `turn_on`/`turn_off` by device name (which fails without a name), whether the brightness then raises, and the new records are those of `ActionStep`, built on `TurnResult`; no switch is lost |
| Tuya.TuyaController.ActivateScene | skills/smarthome-tuya/scripts/tuya_control.py:751-791 | an absent or empty scene is not found and changes nothing. Otherwise the affected list, the failed list and the new records are exactly those of `SceneFrom`: each action in turn is switched by `TurnResult` against the records then in force, listed as affected on success and as failed on failure or when its brightness raises. Hence every action is reported once or twice, only with device names of the scene, an action without a device fails, and success holds iff some device was affected |
| Tuya.TuyaController.DeleteScene | skills/smarthome-tuya/scripts/tuya_control.py:805-821 | removes the first case-insensitive match and succeeds; otherwise it fails and changes nothing. A match on the empty name counts as not found |

## Left out

- File I/O: the alarm, reminder, config, device and scene files are values passed in and returned. A file that fails to load or save is not modelled, beyond `load_config`'s fallback.
- The wake sequences (`execute_wake` and its sound, light, TTS and chat effects) are outside this model. The tick only records whether their log key exists and, for reminders, whether the chat notification can read its setting.
- WakeTick.CheckReminders: `send_chat_notification` calls `load_config` again for every reminder that fires; the model reads one configuration for the whole tick, as the file does not change during it.
- Threads, `schedule`, `sleep`, the daemon's PID file and signals, the tray icon, the menu, dialogs and notifications are not modelled.
- Calendar arithmetic is not modelled: a date is a day number, with no month lengths, no ISO string parsing and no time zones. A `YYYY-MM-DD` either names a day or is bad.
- Record ids, which the source takes from the clock, are parameters.
- The Tuya cloud is a fixed oracle: the same request always gets the same answer. The device discovery that fills the device cache, and the `_fetch_capabilities` network calls, are not modelled; only the merge of their answers is.
- `set_color`, `set_all_*`, the status and discovery commands, and the CLI are outside this model. Of `set_brightness`, only whether it raises inside `activate_scene` is modelled.
- Device records are assumed to carry `name`, `category`, `switch_code` and the capability keys. Scene records are assumed to carry only `name`, `actions` and `created`.
- `_ac_state` is a class attribute, shared by every controller in a process. Here it is a field of the one controller.
- A status item whose `code` is an explicit null is read as the empty code. The source keys it under `None`, which a device's null switch code would then match.
- `int()` on strings with whitespace or underscores, and non-ASCII `.lower()`, are not modelled.
- Clock.ParseClockStrict, Clock.ParseInt: only ASCII digits are read. Python's `int()` and the `\d` of `strptime` also accept other Unicode decimal digits, such as full-width or Arabic-Indic ones, which these parsers reject.
- Tray.AppState.UpdateNextAlarm: an exception from `update_next_alarm` (desktop_app.py:485, or inside `schedule.run_pending` at desktop_app.py:495, including `check_alarms` aborting) ends `scheduler_thread_func`. The model treats each call on its own and assumes the loop goes on, so `Tray.SnoozeDeadline` and `Tray.SnoozeRefiresOnce` hold only while the loop survives; after such an exception no later snooze refires.
- TuyaLookup.CapturedBrightness: the percentage is computed by exact integer truncation of the quotient, not through a floating-point division. Only the clamp to 0..100, the end points and monotonicity are claimed.
- Tray.SnoozeMinutes: a fractional `snooze_minutes` is not modelled (numbers are integers or booleans).
