/**
 * The background context (background.js): default settings on install, the daily
 * reminder alarm, the decision to notify when it fires, and the notification's
 * button and click handlers.
 *
 * The host's alarm table and notification list are fields of `Background`: an
 * alarm is created under a name and replaces any alarm of that name; a
 * notification is shown under an id and cleared by id. Opening the popup is
 * recorded by the ghost counter `popupOpens`. Local time is UTC shifted by the
 * fixed offset `localOffset` (milliseconds); the reminder hour is local, while
 * the day whose entries are checked is the UTC date.
 */
module Background {
  import opened Wrappers
  import opened Dates
  import opened Storage

  const ALARM_NAME: string := "daily-til"
  const DEFAULT_REMINDER_HOUR: int := 20
  const NOTIFICATION_ID: string := "til-reminder"
  const DAILY_PERIOD_MINUTES: int := 24 * 60

  /** A scheduled alarm: first fire time in milliseconds, and the repeat period if any. */
  datatype Alarm = Alarm(when: int, periodInMinutes: Option<int>)

  datatype Button = Button(title: string)

  datatype NotificationOptions = NotificationOptions(
    kind: string,
    iconUrl: string,
    title: string,
    message: string,
    buttons: seq<Button>,
    requireInteraction: bool)

  /** The options `showNotification` passes: two buttons, and it stays until the user acts. */
  const REMINDER: NotificationOptions := NotificationOptions(
    "basic",
    "icons/icon128.png",
    "Time for Today's Learning!",
    "What new thing did you learn today? Take a moment to reflect and record.",
    [Button("Open TIL"), Button("Remind me later")],
    true)

  const DEFAULT_STREAK: Value := StreakRec(StreakState(0, ""))
  const DEFAULT_SETTINGS: Value := SettingsRec(Settings(DEFAULT_REMINDER_HOUR, true))

  // ---------------------------------------------------------------------------
  // Install defaults

  /**
   * The store after `initializeStorage`: the two singletons are present afterwards,
   * each default is written only where its key was absent, and nothing already
   * stored is overwritten.
   */
  function WithDefaults(data: map<string, Value>): (r: map<string, Value>)
    ensures r.Keys == data.Keys + {STREAK_KEY, SETTINGS_KEY}
    ensures forall k :: k in data ==> r[k] == data[k]
    ensures STREAK_KEY !in data ==> r[STREAK_KEY] == DEFAULT_STREAK
    ensures SETTINGS_KEY !in data ==> r[SETTINGS_KEY] == DEFAULT_SETTINGS
  {
    var withStreak := if STREAK_KEY in data then data else data[STREAK_KEY := DEFAULT_STREAK];
    if SETTINGS_KEY in withStreak then withStreak else withStreak[SETTINGS_KEY := DEFAULT_SETTINGS]
  }

  /** The `set` calls `initializeStorage` makes: one per absent singleton, streak first. */
  function DefaultCalls(data: map<string, Value>): seq<StorageCall> {
    (if STREAK_KEY in data then [] else [SetCall(map[STREAK_KEY := DEFAULT_STREAK])])
      + (if SETTINGS_KEY in data then [] else [SetCall(map[SETTINGS_KEY := DEFAULT_SETTINGS])])
  }

  /** Running the install defaults a second time changes nothing. */
  lemma WithDefaultsIdempotent(data: map<string, Value>)
    ensures WithDefaults(WithDefaults(data)) == WithDefaults(data)
  {
  }

  // ---------------------------------------------------------------------------
  // Next fire time

  /**
   * `data.settings?.reminderHour || DEFAULT_REMINDER_HOUR`: the stored hour, except that
   * a missing settings record and an hour of 0 (falsy) both give the default.
   */
  function ReminderHour(data: map<string, Value>): (h: int)
    ensures h != 0
    ensures ReadSettings(data).None? ==> h == DEFAULT_REMINDER_HOUR
    ensures ReadSettings(data).Some? && ReadSettings(data).value.reminderHour != 0 ==>
      h == ReadSettings(data).value.reminderHour
    ensures ReadSettings(data).Some? && ReadSettings(data).value.reminderHour == 0 ==>
      h == DEFAULT_REMINDER_HOUR
  {
    match ReadSettings(data)
    case Some(s) => if s.reminderHour != 0 then s.reminderHour else DEFAULT_REMINDER_HOUR
    case None => DEFAULT_REMINDER_HOUR
  }

  /**
   * The first fire time `scheduleAlarm` computes: `setHours(hour, 0, 0, 0)` on today's
   * local date, moved one day on (`setDate(getDate() + 1)`) when that is not after `now`.
   * For an hour of the day, the result is local `hour`:00:00.000 and lies in
   * (now, now + 24 h].
   */
  function NextFire(now: int, hour: int, localOffset: int): (r: int)
    ensures 0 <= hour < 24 ==> now < r <= now + MS_PER_DAY
    ensures 0 <= hour < 24 ==> (r + localOffset) % MS_PER_DAY == hour * MS_PER_HOUR
    ensures 0 <= hour < 24 ==>
      DayOf(r + localOffset) == DayOf(now + localOffset) || DayOf(r + localOffset) == DayOf(now + localOffset) + 1
  {
    var localDay := DayOf(now + localOffset);
    var target := localDay * MS_PER_DAY + hour * MS_PER_HOUR - localOffset;
    if target <= now then target + MS_PER_DAY else target
  }

  /** No instant strictly after `now` at local `hour`:00 comes before the computed fire time. */
  lemma NextFireIsEarliest(now: int, hour: int, localOffset: int, t: int)
    requires 0 <= hour < 24
    requires now < t && (t + localOffset) % MS_PER_DAY == hour * MS_PER_HOUR
    ensures NextFire(now, hour, localOffset) <= t
  {
  }

  /**
   * The alarm table `scheduleAlarm` leaves: exactly one alarm, the daily one, repeating
   * every 24 hours from the next local reminder hour.
   */
  function DailyTable(now: int, data: map<string, Value>, localOffset: int): (t: map<string, Alarm>)
    ensures t.Keys == {ALARM_NAME}
    ensures t[ALARM_NAME].periodInMinutes == Some(DAILY_PERIOD_MINUTES)
    ensures t[ALARM_NAME].when == NextFire(now, ReminderHour(data), localOffset)
    ensures 0 <= ReminderHour(data) < 24 ==> now < t[ALARM_NAME].when <= now + MS_PER_DAY
  {
    map[ALARM_NAME := Alarm(NextFire(now, ReminderHour(data), localOffset), Some(DAILY_PERIOD_MINUTES))]
  }

  // ---------------------------------------------------------------------------
  // Alarm and notification handlers

  /**
   * Whether the alarm handler shows the reminder: only for the daily alarm, only when
   * notifications are enabled, and only when today's (UTC) list is empty or absent.
   */
  function ShouldNotify(alarmName: string, data: map<string, Value>, now: int): (b: bool)
    ensures alarmName != ALARM_NAME ==> !b
    ensures ReadSettings(data).None? || !ReadSettings(data).value.notificationsEnabled ==> !b
    ensures alarmName == ALARM_NAME && ReadSettings(data).Some? && ReadSettings(data).value.notificationsEnabled ==>
      (b <==> DayEntries(data, TodayKey(now)) == [])
  {
    && alarmName == ALARM_NAME
    && (match ReadSettings(data) case Some(s) => s.notificationsEnabled case None => false)
    && |DayEntries(data, TodayKey(now))| == 0
  }

  /** The snooze: the daily alarm's name now holds a one-shot alarm an hour from `now`. */
  function Snoozed(alarms: map<string, Alarm>, now: int): (r: map<string, Alarm>)
    ensures r.Keys == alarms.Keys + {ALARM_NAME}
    ensures r[ALARM_NAME] == Alarm(now + MS_PER_HOUR, None)
    ensures forall name :: name in alarms && name != ALARM_NAME ==> r[name] == alarms[name]
  {
    alarms[ALARM_NAME := Alarm(now + MS_PER_HOUR, None)]
  }

  /**
   * Because the snooze reuses the daily alarm's name, snoozing after `scheduleAlarm`
   * leaves a single alarm with no repeat period: the daily reminder is gone.
   */
  lemma SnoozeReplacesDailyAlarm(scheduledAt: int, data: map<string, Value>, localOffset: int, now: int)
    ensures var t := Snoozed(DailyTable(scheduledAt, data, localOffset), now);
      && t.Keys == {ALARM_NAME}
      && t[ALARM_NAME].periodInMinutes.None?
      && t[ALARM_NAME].when == now + MS_PER_HOUR
  {
  }

  /** The reminder offers exactly the two actions the button handler knows, and stays until acted on. */
  lemma ReminderCarriesTwoButtons()
    ensures |REMINDER.buttons| == 2
    ensures REMINDER.buttons[0].title == "Open TIL" && REMINDER.buttons[1].title == "Remind me later"
    ensures REMINDER.requireInteraction
  {
  }

  class Background {
    /** `chrome.storage.local`, shared with the popup. */
    const storage: Store
    /** The host's alarms, by name. */
    var alarms: map<string, Alarm>
    /** The notifications on screen, by id. */
    var notifications: map<string, NotificationOptions>
    /** How many times the popup has been opened from a notification. */
    ghost var popupOpens: nat

    constructor (storage: Store)
      ensures this.storage == storage && alarms == map[] && notifications == map[] && popupOpens == 0
    {
      this.storage := storage;
      alarms := map[];
      notifications := map[];
      popupOpens := 0;
    }

    /** `initializeStorage`: writes each default singleton only if its key is absent. */
    method InitializeStorage()
      modifies storage
      ensures storage.data == WithDefaults(old(storage.data))
      ensures storage.calls == old(storage.calls) + DefaultCalls(old(storage.data))
    {
      var hasStreak := STREAK_KEY in storage.data;
      var hasSettings := SETTINGS_KEY in storage.data;
      if !hasStreak {
        storage.Set(map[STREAK_KEY := DEFAULT_STREAK]);
      }
      if !hasSettings {
        storage.Set(map[SETTINGS_KEY := DEFAULT_SETTINGS]);
      }
    }

    /**
     * `scheduleAlarm`: clears every alarm, then creates the daily alarm at the next
     * local reminder hour, repeating every 24 hours.
     */
    method ScheduleAlarm(now: int, localOffset: int)
      modifies this
      ensures alarms == DailyTable(now, storage.data, localOffset)
      ensures notifications == old(notifications) && popupOpens == old(popupOpens)
    {
      alarms := map[];
      var reminderHour := ReminderHour(storage.data);
      var target := NextFire(now, reminderHour, localOffset);
      alarms := alarms[ALARM_NAME := Alarm(target, Some(DAILY_PERIOD_MINUTES))];
    }

    /** The install handler: schedule first, then write the defaults. */
    method OnInstalled(now: int, localOffset: int)
      modifies this, storage
      ensures alarms == DailyTable(now, old(storage.data), localOffset)
      ensures storage.data == WithDefaults(old(storage.data))
      ensures storage.calls == old(storage.calls) + DefaultCalls(old(storage.data))
      ensures notifications == old(notifications) && popupOpens == old(popupOpens)
    {
      ScheduleAlarm(now, localOffset);
      InitializeStorage();
    }

    /** `showNotification`: shows (or replaces) the reminder under its fixed id. */
    method ShowNotification()
      modifies this
      ensures notifications == old(notifications)[NOTIFICATION_ID := REMINDER]
      ensures alarms == old(alarms) && popupOpens == old(popupOpens)
    {
      notifications := notifications[NOTIFICATION_ID := REMINDER];
    }

    /** The alarm handler. */
    method OnAlarm(alarmName: string, now: int)
      modifies this
      ensures notifications ==
        if ShouldNotify(alarmName, storage.data, now) then old(notifications)[NOTIFICATION_ID := REMINDER]
        else old(notifications)
      ensures alarms == old(alarms) && popupOpens == old(popupOpens)
    {
      if alarmName != ALARM_NAME {
        return;
      }
      var settings := ReadSettings(storage.data);
      if settings.None? || !settings.value.notificationsEnabled {
        return;
      }
      var today := TodayKey(now);
      var entries := DayEntries(storage.data, today);
      if |entries| == 0 {
        ShowNotification();
      }
    }

    /**
     * The button handler: for the reminder only, button 0 opens the popup, button 1
     * snoozes by recreating the daily alarm's name as a one-shot an hour from now,
     * and any button then clears the reminder.
     */
    method OnButtonClicked(notifId: string, buttonIndex: int, now: int)
      modifies this
      ensures notifId != NOTIFICATION_ID ==>
        alarms == old(alarms) && notifications == old(notifications) && popupOpens == old(popupOpens)
      ensures notifId == NOTIFICATION_ID ==>
        && notifications == old(notifications) - {NOTIFICATION_ID}
        && popupOpens == old(popupOpens) + (if buttonIndex == 0 then 1 else 0)
        && alarms == (if buttonIndex == 1 then Snoozed(old(alarms), now) else old(alarms))
    {
      if notifId != NOTIFICATION_ID {
        return;
      }
      if buttonIndex == 0 {
        popupOpens := popupOpens + 1;
      } else if buttonIndex == 1 {
        var when := now + MS_PER_HOUR;
        alarms := alarms[ALARM_NAME := Alarm(when, None)];
      }
      notifications := notifications - {NOTIFICATION_ID};
    }

    /** The click handler: a click on the reminder opens the popup and clears it. */
    method OnClicked(notifId: string)
      modifies this
      ensures notifId == NOTIFICATION_ID ==>
        notifications == old(notifications) - {NOTIFICATION_ID} && popupOpens == old(popupOpens) + 1
      ensures notifId != NOTIFICATION_ID ==>
        notifications == old(notifications) && popupOpens == old(popupOpens)
      ensures alarms == old(alarms)
    {
      if notifId == NOTIFICATION_ID {
        popupOpens := popupOpens + 1;
        notifications := notifications - {NOTIFICATION_ID};
      }
    }
  }
}
