/** The alarm and reminder stores of the wake daemon and the operations that
    edit them: creating, deleting and toggling records, and reading the
    configuration with its defaults. Each store is the list that
    `load_alarms` / `load_reminders` return; what an operation saves is its
    result. */
module WakeRecords {
  import opened Common
  import opened Clock

  /** An optional ISO timestamp field (`target_datetime`, `last_triggered`):
      absent, `None` or empty; one that `datetime.fromisoformat` reads; or
      one it rejects. */
  datatype Stamp = Missing | At(t: int) | Garbled

  /** The `date` field: absent or empty, a `YYYY-MM-DD` that names a day, or
      one whose split or `datetime(...)` raises. */
  datatype DateField = NoDay | Day(d: int) | BadDay

  /** The fields that alarms and reminders share and that the scheduler reads
      and writes. A missing `time` key fails everywhere exactly as an
      unparsable time string does, so it is one. */
  datatype Timing = Timing(
    time: string,
    date: DateField,
    target: Stamp,
    repeat: string,
    enabled: Option<bool>,
    lastTriggered: Stamp)

  /** `record.get('enabled', True)`. */
  predicate IsEnabled(w: Timing) {
    w.enabled.GetOr(true)
  }

  /** An alarm record; `mode` is None when the key is missing. */
  datatype Alarm = Alarm(
    id: string,
    mode: Option<string>,
    caption: string,  // the `label` key
    snoozeCount: int,
    createdAt: int,
    when: Timing)

  /** A reminder record; `message` is None when the key is missing. */
  datatype Reminder = Reminder(
    id: string,
    message: Option<string>,
    priority: string,
    createdAt: int,
    when: Timing)

  /** The result of `add_alarm` / `add_reminder`: the saved store and the new
      record, `None` returned for an invalid time, or an exception raised. */
  datatype Added<R> = Added(store: seq<R>, record: R) | Rejected | Raised

  /** The schedule of a freshly created record that resolves to `target`. */
  function FreshTiming(timeStr: string, target: int, repeat: string): (w: Timing)
    ensures IsEnabled(w) && w.lastTriggered == Missing
    ensures w.target == At(target) && w.date == Day(DayOf(target))
  {
    Timing(timeStr, Day(DayOf(target)), At(target), repeat, Some(true), Missing)
  }

  /** `add_alarm(time_str, mode, label, repeat, date_str)` at instant `now`;
      `id` is the generated `alarm_<timestamp>`. */
  function AddAlarm(alarms: seq<Alarm>, timeStr: string, mode: string, caption: string,
                    repeat: string, date: DateArg, now: int, id: string): (r: Added<Alarm>)
    ensures r.Rejected? <==> !ValidTime(timeStr)
    ensures r.Raised? <==> ValidTime(timeStr) && date.BadDate?
    ensures r.Added? ==> r.store == alarms + [r.record]
    ensures r.Added? ==>
      var w := r.record.when;
      && r.record.id == id && r.record.mode == Some(mode) && w.time == timeStr && w.repeat == repeat
      && r.record.caption == (if caption == "" then "Alarm " + timeStr else caption)
      && IsEnabled(w) && r.record.snoozeCount == 0 && w.lastTriggered == Missing
      && w.target.At? && w.date == Day(DayOf(w.target.t))
      && Some(w.target.t) == CalculateAlarmDatetime(timeStr, date, now)
  {
    if !ValidTime(timeStr) then Rejected
    else match CalculateAlarmDatetime(timeStr, date, now)
      case None => Raised
      case Some(t) =>
        var alarm := Alarm(id, Some(mode), if caption == "" then "Alarm " + timeStr else caption,
                           0, now, FreshTiming(timeStr, t, repeat));
        Added(alarms + [alarm], alarm)
  }

  /** `add_reminder(message, time_str, date_str, repeat, priority)`: unlike
      `add_alarm` it does not validate the time first, so a bad time raises
      from `calculate_alarm_datetime` instead of returning `None`. */
  function AddReminder(reminders: seq<Reminder>, message: string, timeStr: string, date: DateArg,
                       repeat: string, priority: string, now: int, id: string): (r: Added<Reminder>)
    ensures !r.Rejected?
    ensures r.Raised? <==> !ValidTime(timeStr) || date.BadDate?
    ensures r.Added? ==> r.store == reminders + [r.record]
    ensures r.Added? ==>
      var w := r.record.when;
      && r.record.id == id && r.record.message == Some(message) && r.record.priority == priority
      && w.time == timeStr && w.repeat == repeat && IsEnabled(w) && w.lastTriggered == Missing
      && w.target.At? && w.date == Day(DayOf(w.target.t))
      && Some(w.target.t) == CalculateAlarmDatetime(timeStr, date, now)
  {
    match CalculateAlarmDatetime(timeStr, date, now)
    case None => Raised
    case Some(t) =>
      var reminder := Reminder(id, Some(message), priority, now, FreshTiming(timeStr, t, repeat));
      Added(reminders + [reminder], reminder)
  }

  /** A dated alarm added a few minutes after its time of day goes to the next
      day: created at 07:05 on day D, "07:00" resolves to 07:00 on day D+1. */
  lemma AddAlarmAfterItsTimeGoesToTomorrow(alarms: seq<Alarm>, d: int, id: string)
    ensures
      var r := AddAlarm(alarms, "07:00", "normal", "", "once", NoDate, d * DAY + 7 * HOUR + 5 * MINUTE, id);
      r.Added? && r.record.when.target == At((d + 1) * DAY + 7 * HOUR)
      && r.record.caption == "Alarm 07:00"
  {
    var now := d * DAY + 7 * HOUR + 5 * MINUTE;
    SevenOClock();
    var y := (d + 1) * DAY + 7 * HOUR;
    DayOffset(d + 1, 7 * HOUR);
    var c := CalculateAlarmDatetime("07:00", NoDate, now);
    assert c.Some? && now < c.value <= now + DAY && c.value % DAY == 7 * HOUR;
    OneInstantPerDay(c.value, y, now);
  }

  // ---------------------------------------------------------------------------
  // delete_alarm, delete_reminder, toggle_alarm
  // ---------------------------------------------------------------------------

  /** The filter of `delete_alarm`: the record has the given id. */
  function AlarmIdIs(id: string): Alarm -> bool {
    (a: Alarm) => a.id == id
  }

  /** The filter of `delete_reminder`. */
  function ReminderIdIs(id: string): Reminder -> bool {
    (m: Reminder) => m.id == id
  }

  /** `delete_alarm(alarm_id, delete_all)`: whether it reports success, and the
      store afterwards (saved only when something was removed). */
  function DeleteAlarm(alarms: seq<Alarm>, id: string, deleteAll: bool): (r: (bool, seq<Alarm>))
    ensures deleteAll ==> r == (true, [])
    ensures !deleteAll ==> (r.0 <==> exists i :: 0 <= i < |alarms| && alarms[i].id == id)
    ensures !deleteAll ==> forall i :: 0 <= i < |r.1| ==> r.1[i].id != id && r.1[i] in alarms
    ensures !deleteAll ==> forall i :: 0 <= i < |alarms| && alarms[i].id != id ==> alarms[i] in r.1
    ensures !deleteAll && r.0 ==> r.1 == RemoveWhere(alarms, AlarmIdIs(id))
    ensures !r.0 ==> r.1 == alarms
  {
    if deleteAll then (true, [])
    else
      var drop := AlarmIdIs(id);
      RemoveWhereShape(alarms, drop);
      var kept := RemoveWhere(alarms, drop);
      if |kept| < |alarms| then (true, kept) else (false, alarms)
  }

  /** `delete_reminder(reminder_id)`. */
  function DeleteReminder(reminders: seq<Reminder>, id: string): (r: (bool, seq<Reminder>))
    ensures r.0 <==> exists i :: 0 <= i < |reminders| && reminders[i].id == id
    ensures forall i :: 0 <= i < |r.1| ==> r.1[i].id != id && r.1[i] in reminders
    ensures forall i :: 0 <= i < |reminders| && reminders[i].id != id ==> reminders[i] in r.1
    ensures r.0 ==> r.1 == RemoveWhere(reminders, ReminderIdIs(id))
    ensures !r.0 ==> r.1 == reminders
  {
    var drop := ReminderIdIs(id);
    RemoveWhereShape(reminders, drop);
    var kept := RemoveWhere(reminders, drop);
    if |kept| < |reminders| then (true, kept) else (false, reminders)
  }

  /** Deleting keeps the surviving alarms in their stored order: deleting from
      a concatenation deletes from each part. */
  lemma DeleteAlarmKeepsOrder(a: seq<Alarm>, b: seq<Alarm>, id: string)
    requires exists i :: 0 <= i < |a| && a[i].id == id
    ensures DeleteAlarm(a + b, id, false).1 == DeleteAlarm(a, id, false).1 + RemoveWhere(b, AlarmIdIs(id))
  {
    var drop := AlarmIdIs(id);
    var i :| 0 <= i < |a| && a[i].id == id;
    assert (a + b)[i] == a[i];
    RemoveWhereAppend(a, b, drop);
  }

  /** The alarm with its `enabled` flag set as `toggle_alarm` sets it: flipped
      when no value is given (a missing flag counts as true), else the value. */
  function Toggled(a: Alarm, enabled: Option<bool>): (r: Alarm)
    ensures enabled.None? ==> IsEnabled(r.when) == !IsEnabled(a.when)
    ensures enabled.Some? ==> IsEnabled(r.when) == enabled.value
    ensures r.when.enabled.Some? && r.(when := r.when.(enabled := a.when.enabled)) == a
  {
    var v := if enabled.None? then !IsEnabled(a.when) else enabled.value;
    a.(when := a.when.(enabled := Some(v)))
  }

  /** Flipping twice restores whether an alarm is enabled, though a missing
      flag comes back as an explicit `true`. */
  lemma ToggleTwice(a: Alarm)
    ensures IsEnabled(Toggled(Toggled(a, None), None).when) == IsEnabled(a.when)
  {
  }

  /** Toggling the same id twice without a value: the first toggle leaves
      the same record first with that id, so the second toggles it back, and
      the store returns to its old contents with every record's enabled
      state restored (only a missing flag comes back as an explicit one). */
  lemma {:induction false} ToggleTwiceStore(alarms: seq<Alarm>, k: int)
    requires 0 <= k < |alarms| && forall j :: 0 <= j < k ==> alarms[j].id != alarms[k].id
    ensures var once := alarms[k := Toggled(alarms[k], None)];
      && once[k].id == alarms[k].id
      && (forall j :: 0 <= j < k ==> once[j].id != once[k].id)
      && var twice := once[k := Toggled(once[k], None)];
      && |twice| == |alarms|
      && (forall j :: 0 <= j < |alarms| ==> IsEnabled(twice[j].when) == IsEnabled(alarms[j].when))
      && (forall j :: 0 <= j < |alarms| && j != k ==> twice[j] == alarms[j])
      && twice[k].(when := twice[k].when.(enabled := alarms[k].when.enabled)) == alarms[k]
  {
    ToggleTwice(alarms[k]);
  }

  /** `toggle_alarm(alarm_id, enabled)`: changes the first record with that id
      and reports whether there was one; the store is saved only then. */
  method ToggleAlarm(alarms: seq<Alarm>, id: string, enabled: Option<bool>) returns (found: bool, store: seq<Alarm>)
    ensures found <==> exists i :: 0 <= i < |alarms| && alarms[i].id == id
    ensures !found ==> store == alarms
    ensures found ==> (exists k :: 0 <= k < |alarms| && alarms[k].id == id
                        && (forall j :: 0 <= j < k ==> alarms[j].id != id)
                        && store == alarms[k := Toggled(alarms[k], enabled)])
  {
    var i := 0;
    while i < |alarms|
      invariant 0 <= i <= |alarms|
      invariant forall j :: 0 <= j < i ==> alarms[j].id != id
    {
      if alarms[i].id == id {
        return true, alarms[i := Toggled(alarms[i], enabled)];
      }
      i := i + 1;
    }
    return false, alarms;
  }

  // ---------------------------------------------------------------------------
  // load_config
  // ---------------------------------------------------------------------------

  const DEFAULT_CONFIG: map<string, Json> := map[
    "default_mode" := JStr("normal"),
    "snooze_minutes" := JInt(10),
    "max_snooze" := JInt(3),
    "volume" := JInt(100),
    "sounds" := JObject(map[
      "gentle" := JStr("gentle_alarm.wav"),
      "normal" := JStr("alarm.wav"),
      "nuclear" := JStr("nuclear_alarm.wav")]),
    "tts" := JObject(map[
      "enabled" := JBool(true),
      "messages" := JObject(map[
        "gentle" := JStr("Selamat pagi, Sayang. Sudah waktunya bangun."),
        "normal" := JStr("Bangun Sayang! Sudah pagi!"),
        "nuclear" := JStr("BANGUN! SUDAH TELAT! CEPAT BANGUN SEKARANG!")])]),
    "tuya" := JObject(map[
      "enabled" := JBool(true),
      "wake_lights" := JList([JStr("lampu meja"), JStr("soft box 1"), JStr("soft box 2"),
                              JStr("lampu strip meja"), JStr("lampu strip dinding")]),
      "ac_device" := JStr("AC Studio")]),
    "chat" := JObject(map[
      "enabled" := JBool(true),
      "target" := JStr("+6287877974096")])]

  /** Python's `key in v` for a decoded value `v` that is not a dict: list
      membership or substring; None when `in` raises `TypeError`. */
  function ContainsKey(v: Json, key: string): Option<bool> {
    match v
    case JList(items) => Some(JStr(key) in items)
    case JStr(s) => Some(IsSubstring(key, s))
    case _ => None
  }

  /** `load_config()`: `file` is the decoded config file, None when it is
      missing or does not decode. A dict gets every missing top-level default
      added (nested dicts are not merged). Any other value raises on the first
      assignment, which falls back to the defaults, unless no assignment is
      needed because `in` finds every default key in it. */
  function LoadConfig(file: Option<Json>): (r: Json)
    ensures file.None? ==> r == JObject(DEFAULT_CONFIG)
    ensures file.Some? && file.value.JObject? ==>
      var m := file.value.fields;
      && r.JObject? && r.fields.Keys == m.Keys + DEFAULT_CONFIG.Keys
      && (forall k :: k in m ==> r.fields[k] == m[k])
      && (forall k :: k in DEFAULT_CONFIG && k !in m ==> r.fields[k] == DEFAULT_CONFIG[k])
    ensures file.Some? && !file.value.JObject? ==> r == file.value || r == JObject(DEFAULT_CONFIG)
    ensures file.Some? && !file.value.JObject? ==>
      (r == file.value <==> forall k :: k in DEFAULT_CONFIG ==> ContainsKey(file.value, k) == Some(true))
  {
    match file
    case None => JObject(DEFAULT_CONFIG)
    case Some(JObject(m)) => JObject(DEFAULT_CONFIG + m)
    case Some(v) =>
      if forall k :: k in DEFAULT_CONFIG ==> ContainsKey(v, k) == Some(true) then v
      else JObject(DEFAULT_CONFIG)
  }

  /** A stored value always wins over the default, even a nested dict that
      lacks keys of the default one. */
  lemma LoadConfigIsShallow(stored: map<string, Json>)
    requires "tts" in stored
    ensures LoadConfig(Some(JObject(stored))).fields["tts"] == stored["tts"]
    ensures LoadConfig(Some(JObject(stored))).fields["snooze_minutes"]
            == if "snooze_minutes" in stored then stored["snooze_minutes"] else JInt(10)
  {
  }
}
