/**
 * The extension's persistent key-value store (`chrome.storage.local`), shared by the
 * popup and the background context, and the shapes of the values kept in it.
 */
module Storage {
  import opened Wrappers

  const STREAK_KEY: string := "streak"
  const SETTINGS_KEY: string := "settings"

  datatype StreakState = StreakState(count: int, lastUpdate: string)
  datatype Settings = Settings(reminderHour: int, notificationsEnabled: bool)

  /** A stored value: one day's list of entries, the streak record or the settings record. */
  datatype Value =
    | Entries(list: seq<string>)
    | StreakRec(streak: StreakState)
    | SettingsRec(settings: Settings)

  /** One call the extension made on the store. */
  datatype StorageCall =
    | SetCall(items: map<string, Value>)
    | RemoveCall(keys: set<string>)

  /**
   * `data[key] || []`: the entries stored under `key`; an absent key (or a value that
   * is not a list of entries) reads as the empty list.
   */
  function DayEntries(data: map<string, Value>, key: string): (r: seq<string>)
    ensures key !in data ==> r == []
    ensures key in data && data[key].Entries? ==> r == data[key].list
  {
    if key in data && data[key].Entries? then data[key].list else []
  }

  /** `data.streak || { count: 0, lastUpdate: '' }`. */
  function ReadStreak(data: map<string, Value>): (s: StreakState)
    ensures STREAK_KEY in data && data[STREAK_KEY].StreakRec? ==> s == data[STREAK_KEY].streak
    ensures STREAK_KEY !in data || !data[STREAK_KEY].StreakRec? ==> s == StreakState(0, "")
  {
    if STREAK_KEY in data && data[STREAK_KEY].StreakRec? then data[STREAK_KEY].streak
    else StreakState(0, "")
  }

  /** `data.settings`, if present. */
  function ReadSettings(data: map<string, Value>): (s: Option<Settings>)
    ensures SETTINGS_KEY in data && data[SETTINGS_KEY].SettingsRec? ==> s == Some(data[SETTINGS_KEY].settings)
    ensures SETTINGS_KEY !in data || !data[SETTINGS_KEY].SettingsRec? ==> s == None
  {
    if SETTINGS_KEY in data && data[SETTINGS_KEY].SettingsRec? then Some(data[SETTINGS_KEY].settings)
    else None
  }

  /** Setting a single key merges the same as updating it. */
  lemma MergeOne(data: map<string, Value>, key: string, v: Value)
    ensures data + map[key := v] == data[key := v]
  {
  }

  /**
   * The storage area. Every write replaces whole values; `calls` records each
   * `set` and `remove` issued, in order.
   */
  class Store {
    var data: map<string, Value>
    ghost var calls: seq<StorageCall>

    constructor (initial: map<string, Value>)
      ensures data == initial && calls == []
    {
      data := initial;
      calls := [];
    }

    /** `storage.set(items)`: each given key now holds its given value; no other key changes. */
    method Set(items: map<string, Value>)
      modifies this
      ensures data == old(data) + items
      ensures calls == old(calls) + [SetCall(items)]
    {
      data := data + items;
      calls := calls + [SetCall(items)];
    }

    /** `storage.remove(keys)`: the given keys are gone; no other key changes. */
    method Remove(keys: set<string>)
      modifies this
      ensures data == old(data) - keys
      ensures calls == old(calls) + [RemoveCall(keys)]
    {
      data := data - keys;
      calls := calls + [RemoveCall(keys)];
    }
  }
}
