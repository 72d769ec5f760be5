/**
 * The journal popup (popup.js): today's entry list with its limits, the
 * retention sweep, the streak state machine and the warning classes shown
 * beside the counters.
 *
 * The popup keeps today's entries in memory (`currentEntries`) and writes the
 * whole list back under today's key after every change. The clock is a
 * parameter: every operation that reads the time takes `now`, in milliseconds.
 */
module Popup {
  import opened Wrappers
  import opened Dates
  import opened Text
  import opened Storage

  const MAX_CHARS: int := 280
  const MAX_ENTRIES_PER_DAY: int := 10
  const MAX_DAYS_TO_KEEP: int := 30

  // ---------------------------------------------------------------------------
  // Retention

  /** `Math.floor((today - date) / MS_PER_DAY)` for the start of UTC day `day`. */
  function DaysSince(now: int, day: int): (n: int)
    ensures n == DayOf(now) - day
  {
    (now - day * MS_PER_DAY) / MS_PER_DAY
  }

  /**
   * Whether the sweep removes `key`: not one of the two singletons, parses as a
   * date, and that date is more than 30 whole days before `now`. A key that does
   * not parse gives an invalid date, whose difference is NaN and never > 30.
   */
  predicate IsStale(key: string, now: int) {
    && key != STREAK_KEY
    && key != SETTINGS_KEY
    && match ParseDayKey(key)
       case Some(day) => DaysSince(now, day) > MAX_DAYS_TO_KEEP
       case None => false
  }

  /** The keys `cleanupOldData` removes from a store holding `data` at instant `now`. */
  function StaleKeys(data: map<string, Value>, now: int): (r: set<string>)
    ensures r <= data.Keys
    ensures STREAK_KEY !in r && SETTINGS_KEY !in r
    ensures forall k :: k in r ==> ParseDayKey(k).Some? && DayOf(now) - ParseDayKey(k).value > MAX_DAYS_TO_KEEP
    ensures forall k :: (k in data && k != STREAK_KEY && k != SETTINGS_KEY && ParseDayKey(k).Some?
                         && DayOf(now) - ParseDayKey(k).value > MAX_DAYS_TO_KEEP) ==> k in r
  {
    set k | k in data.Keys && IsStale(k, now)
  }

  /** After a sweep, every remaining date key is at most 30 days old. */
  lemma SweepEstablishesRetention(data: map<string, Value>, now: int)
    ensures forall k :: (k in data - StaleKeys(data, now) && k != STREAK_KEY && k != SETTINGS_KEY
                         && ParseDayKey(k).Some?) ==> DayOf(now) - ParseDayKey(k).value <= MAX_DAYS_TO_KEEP
  {
  }

  /** A second sweep at the same instant finds nothing to remove. */
  lemma SweepIdempotent(data: map<string, Value>, now: int)
    ensures StaleKeys(data - StaleKeys(data, now), now) == {}
  {
  }

  /** The sweep never removes the key of the current day (for years 0000-9999). */
  lemma {:induction false} SweepKeepsToday(data: map<string, Value>, now: int)
    requires InKeyRange(DayOf(now))
    ensures TodayKey(now) !in StaleKeys(data, now)
  {
    ParseDayKeyOfDayKey(DayOf(now));
  }

  // ---------------------------------------------------------------------------
  // Streak

  /** `Math.ceil(x / k)` for a positive divisor. */
  function CeilDiv(x: int, k: int): int
    requires k > 0
  {
    -((-x) / k)
  }

  /**
   * `isConsecutiveDay`: true when `lastDate` is empty, otherwise true exactly when
   * both strings are dates and `currentDate` is the day after `lastDate`.
   */
  function IsConsecutiveDay(lastDate: string, currentDate: string): (r: bool)
    ensures lastDate == "" ==> r
    ensures lastDate != "" ==>
      (r <==> ParseDayKey(lastDate).Some? && ParseDayKey(currentDate).Some?
              && ParseDayKey(currentDate).value == ParseDayKey(lastDate).value + 1)
  {
    if lastDate == "" then true
    else match (ParseDayKey(lastDate), ParseDayKey(currentDate))
      case (Some(last), Some(current)) =>
        var diffTime := current * MS_PER_DAY - last * MS_PER_DAY;
        assert CeilDiv(diffTime, MS_PER_DAY) == current - last;
        CeilDiv(diffTime, MS_PER_DAY) == 1
      // An invalid date makes the difference NaN, and NaN === 1 is false.
      case _ => false
  }

  /**
   * The streak after `updateStreak` on a day keyed `today` with `entryCount` entries
   * loaded, or None when the guard fails and nothing is written.
   */
  function UpdatedStreak(streak: StreakState, today: string, entryCount: int): (r: Option<StreakState>)
    ensures r.None? <==> streak.lastUpdate == today || entryCount <= 0
    ensures r.Some? ==> r.value.lastUpdate == today
    ensures r.Some? && streak.lastUpdate == "" ==> r.value.count == streak.count + 1
    ensures r.Some? && streak.lastUpdate != "" ==>
      r.value.count ==
        if ParseDayKey(streak.lastUpdate).Some? && ParseDayKey(today).Some?
           && ParseDayKey(today).value == ParseDayKey(streak.lastUpdate).value + 1
        then streak.count + 1 else 1
  {
    if streak.lastUpdate != today && entryCount > 0 then
      Some(StreakState(if IsConsecutiveDay(streak.lastUpdate, today) then streak.count + 1 else 1, today))
    else None
  }

  /** The store after `updateStreak`: the new streak is written only when it changed. */
  function StreakWritten(data: map<string, Value>, today: string, entryCount: int): (r: map<string, Value>)
    ensures r.Keys == data.Keys + (if UpdatedStreak(ReadStreak(data), today, entryCount).Some? then {STREAK_KEY} else {})
    ensures forall k :: k in data && k != STREAK_KEY ==> r[k] == data[k]
    ensures UpdatedStreak(ReadStreak(data), today, entryCount).None? ==> r == data
    ensures UpdatedStreak(ReadStreak(data), today, entryCount).Some? ==>
      r[STREAK_KEY] == StreakRec(UpdatedStreak(ReadStreak(data), today, entryCount).value)
      && ReadStreak(r) == UpdatedStreak(ReadStreak(data), today, entryCount).value
  {
    match UpdatedStreak(ReadStreak(data), today, entryCount)
    case None => data
    case Some(s) => data[STREAK_KEY := StreakRec(s)]
  }

  /** The storage calls `updateStreak` makes: one `set` of the new streak, or none. */
  function StreakCalls(data: map<string, Value>, today: string, entryCount: int): seq<StorageCall> {
    match UpdatedStreak(ReadStreak(data), today, entryCount)
    case None => []
    case Some(s) => [SetCall(map[STREAK_KEY := StreakRec(s)])]
  }

  lemma StreakWrittenKeepsOtherKeys(data: map<string, Value>, today: string, entryCount: int, key: string)
    requires key in data && key != STREAK_KEY
    ensures key in StreakWritten(data, today, entryCount)
    ensures StreakWritten(data, today, entryCount)[key] == data[key]
  {
  }

  /** The streak transition between two keys that read as different days. */
  lemma UpdatedStreakBetweenDays(count: int, last: string, today: string, lastDay: int, todayDay: int, entryCount: int)
    requires ParseDayKey(last) == Some(lastDay) && ParseDayKey(today) == Some(todayDay)
    requires lastDay != todayDay && entryCount > 0
    ensures UpdatedStreak(StreakState(count, last), today, entryCount)
      == Some(StreakState(if todayDay == lastDay + 1 then count + 1 else 1, today))
  {
  }

  /** Logging on the day after `lastUpdate` extends the streak by one. */
  lemma {:induction false} StreakExtendsOnNextDay(count: int, day: int, entryCount: int)
    requires InKeyRange(day) && InKeyRange(day + 1) && entryCount > 0
    ensures UpdatedStreak(StreakState(count, DayKey(day)), DayKey(day + 1), entryCount)
      == Some(StreakState(count + 1, DayKey(day + 1)))
  {
    ParseDayKeyOfDayKey(day);
    ParseDayKeyOfDayKey(day + 1);
    UpdatedStreakBetweenDays(count, DayKey(day), DayKey(day + 1), day, day + 1, entryCount);
  }

  /** Logging two or more days after `lastUpdate` (or on an earlier day) resets the streak to 1. */
  lemma {:induction false} StreakResetsAfterGap(count: int, day: int, later: int, entryCount: int)
    requires InKeyRange(day) && InKeyRange(later) && entryCount > 0
    requires later != day && later != day + 1
    ensures UpdatedStreak(StreakState(count, DayKey(day)), DayKey(later), entryCount)
      == Some(StreakState(1, DayKey(later)))
  {
    ParseDayKeyOfDayKey(day);
    ParseDayKeyOfDayKey(later);
    UpdatedStreakBetweenDays(count, DayKey(day), DayKey(later), day, later, entryCount);
  }

  /** A second update on the same day, or a day with no entries, changes nothing. */
  lemma StreakUnchangedSameDayOrNoEntries(streak: StreakState, today: string, entryCount: int)
    requires streak.lastUpdate == today || entryCount <= 0
    ensures forall data :: ReadStreak(data) == streak ==> StreakWritten(data, today, entryCount) == data
  {
  }

  /** Entries on three consecutive days, starting from the initial streak, give a streak of 3. */
  lemma {:induction false} StreakOfThreeConsecutiveDays(day: int)
    requires InKeyRange(day) && InKeyRange(day + 1) && InKeyRange(day + 2)
    ensures
      var s1 := UpdatedStreak(StreakState(0, ""), DayKey(day), 1);
      s1.Some? &&
      var s2 := UpdatedStreak(s1.value, DayKey(day + 1), 1);
      s2.Some? &&
      var s3 := UpdatedStreak(s2.value, DayKey(day + 2), 1);
      s3 == Some(StreakState(3, DayKey(day + 2)))
  {
    var k1, k2, k3 := DayKey(day), DayKey(day + 1), DayKey(day + 2);
    assert k1 != "" by { assert |k1| == 10; }
    var s1 := UpdatedStreak(StreakState(0, ""), k1, 1);
    assert s1 == Some(StreakState(1, k1));
    StreakExtendsOnNextDay(1, day, 1);
    var s2 := UpdatedStreak(s1.value, k2, 1);
    assert s2 == Some(StreakState(2, k2));
    StreakExtendsOnNextDay(2, day + 1, 1);
  }

  // ---------------------------------------------------------------------------
  // Entry list

  /**
   * `s.splice(index, 1)`: a negative index counts from the end (clamped at 0), an
   * index at or past the end removes nothing; otherwise exactly that element goes
   * and the rest keep their order.
   */
  function Splice(s: seq<string>, index: int): (r: seq<string>)
    ensures 0 <= index < |s| ==>
      && |r| == |s| - 1
      && (forall j :: 0 <= j < |r| ==> r[j] == if j < index then s[j] else s[j + 1])
      && multiset(r) + multiset{s[index]} == multiset(s)
    ensures index >= |s| ==> r == s
    ensures -|s| <= index < 0 ==> r == s[..|s| + index] + s[|s| + index + 1..]
    ensures index < -|s| ==> r == (if s == [] then [] else s[1..])
  {
    var start := if index < 0 then (if |s| + index < 0 then 0 else |s| + index)
                 else if index < |s| then index else |s|;
    if start < |s| then
      assert s == s[..start] + [s[start]] + s[start + 1..];
      s[..start] + s[start + 1..]
    else s
  }

  datatype SubmitOutcome =
    | Added         // appended, written back, streak updated
    | Ignored       // the trimmed text is empty or longer than MAX_CHARS
    | LimitReached  // the day already holds MAX_ENTRIES_PER_DAY entries (the alert)

  /** What the submit handler does with `input` when `count` entries are loaded. */
  function SubmitVerdict(input: string, count: int): (o: SubmitOutcome)
    ensures o == Ignored <==> AllWhiteSpace(input) || |Trim(input)| > MAX_CHARS
    ensures o == LimitReached <==> !AllWhiteSpace(input) && |Trim(input)| <= MAX_CHARS && count >= MAX_ENTRIES_PER_DAY
    ensures o == Added ==> 1 <= |Trim(input)| <= MAX_CHARS && count < MAX_ENTRIES_PER_DAY
  {
    var text := Trim(input);
    if text == [] || |text| > MAX_CHARS then Ignored
    else if count >= MAX_ENTRIES_PER_DAY then LimitReached
    else Added
  }

  // ---------------------------------------------------------------------------
  // Warning classes

  datatype CountWarning = NoWarning | NearLimit | AtLimit

  /** The class `updateEntryCount` puts on the entry counter. */
  function EntryCountWarning(count: int): (w: CountWarning)
    ensures w == AtLimit <==> count >= MAX_ENTRIES_PER_DAY
    ensures w == NearLimit <==> count == MAX_ENTRIES_PER_DAY - 2 || count == MAX_ENTRIES_PER_DAY - 1
    ensures w == NoWarning <==> count < MAX_ENTRIES_PER_DAY - 2
  {
    if count >= MAX_ENTRIES_PER_DAY then AtLimit
    else if count >= MAX_ENTRIES_PER_DAY - 2 then NearLimit
    else NoWarning
  }

  /** Whether `updateCharCount` marks the character counter over-limit. */
  function CharCountOverLimit(length: int): (over: bool)
    ensures over <==> length > MAX_CHARS
  {
    length > MAX_CHARS
  }

  /** The at-limit class is shown exactly when a non-blank, short enough submit would be refused. */
  lemma AtLimitMeansSubmitRefused(input: string, count: int)
    requires !AllWhiteSpace(input) && |Trim(input)| <= MAX_CHARS
    ensures EntryCountWarning(count) == AtLimit <==> SubmitVerdict(input, count) == LimitReached
  {
  }

  /**
   * The counter shows the raw length, submit checks the trimmed length: a counter
   * within the limit means the length check passes, but an over-limit counter does
   * not mean the text is refused.
   */
  lemma CharCounterVersusSubmit(input: string)
    ensures !CharCountOverLimit(|input|) ==> |Trim(input)| <= MAX_CHARS
    ensures var padded := seq(MAX_CHARS + 1, _ => ' ') + "x";
      CharCountOverLimit(|padded|) && SubmitVerdict(padded, 0) == Added
  {
    var padded := seq(MAX_CHARS + 1, _ => ' ') + "x";
    assert TrimStart(padded) == "x" by {
      TrimStartSkipsBlanks(MAX_CHARS + 1);
    }
    assert !AllWhiteSpace(padded) by {
      assert padded[MAX_CHARS + 1] == 'x';
    }
  }

  lemma {:induction false} TrimStartSkipsBlanks(n: nat)
    ensures TrimStart(seq(n, _ => ' ') + "x") == "x"
  {
    var s := seq(n, _ => ' ') + "x";
    if n > 0 {
      assert s[0] == ' ';
      assert s[1..] == seq(n - 1, _ => ' ') + "x";
      TrimStartSkipsBlanks(n - 1);
    } else {
      assert s == "x";
    }
  }

  // ---------------------------------------------------------------------------
  // The popup

  class Popup {
    /** `chrome.storage.local`, shared with the background context. */
    const storage: Store
    /** The in-memory copy of today's list (`currentEntries`). */
    var currentEntries: seq<string>

    constructor (storage: Store)
      ensures this.storage == storage && currentEntries == []
    {
      this.storage := storage;
      currentEntries := [];
    }

    /**
     * `cleanupOldData`: walks every key, collects the stale ones and removes them
     * in one call, which is skipped when there are none.
     */
    method CleanupOldData(now: int) returns (removed: set<string>)
      modifies storage
      ensures removed == StaleKeys(old(storage.data), now)
      ensures storage.data == old(storage.data) - removed
      ensures storage.calls == old(storage.calls) + (if removed == {} then [] else [RemoveCall(removed)])
    {
      var allData := storage.data;
      var keysToRemove: set<string> := {};
      var pending := allData.Keys;
      while pending != {}
        invariant pending <= allData.Keys
        invariant keysToRemove == set k | k in allData.Keys - pending && IsStale(k, now)
        decreases pending
      {
        var key :| key in pending;
        pending := pending - {key};
        if key == STREAK_KEY || key == SETTINGS_KEY {
          continue;
        }
        match ParseDayKey(key) {
          case None =>
          case Some(day) =>
            if DaysSince(now, day) > MAX_DAYS_TO_KEEP {
              keysToRemove := keysToRemove + {key};
            }
        }
      }
      if keysToRemove != {} {
        storage.Remove(keysToRemove);
      }
      removed := keysToRemove;
    }

    /** `loadTodayEntries`: today's stored list, or the empty list when there is none. */
    method LoadTodayEntries(now: int)
      modifies this
      ensures currentEntries == DayEntries(storage.data, TodayKey(now))
    {
      currentEntries := DayEntries(storage.data, TodayKey(now));
    }

    /**
     * `updateStreak`: advances or resets the stored streak when today has entries
     * and has not been counted yet; returns the count shown.
     */
    method UpdateStreak(now: int) returns (shown: int)
      modifies storage
      ensures storage.data == StreakWritten(old(storage.data), TodayKey(now), |currentEntries|)
      ensures storage.calls == old(storage.calls) + StreakCalls(old(storage.data), TodayKey(now), |currentEntries|)
      ensures shown == ReadStreak(storage.data).count
    {
      var streak := ReadStreak(storage.data);
      var today := TodayKey(now);
      if streak.lastUpdate != today && |currentEntries| > 0 {
        if IsConsecutiveDay(streak.lastUpdate, today) {
          streak := streak.(count := streak.count + 1);
        } else {
          streak := streak.(count := 1);
        }
        streak := streak.(lastUpdate := today);
        MergeOne(storage.data, STREAK_KEY, StreakRec(streak));
        storage.Set(map[STREAK_KEY := StreakRec(streak)]);
      }
      shown := streak.count;
    }

    /** `initialize`: sweep, load today's list, then update the streak. */
    method Initialize(now: int) returns (shownStreak: int)
      modifies this, storage
      ensures var stale := StaleKeys(old(storage.data), now);
        var swept := old(storage.data) - stale;
        && currentEntries == DayEntries(swept, TodayKey(now))
        && storage.data == StreakWritten(swept, TodayKey(now), |currentEntries|)
        && storage.calls == old(storage.calls) + (if stale == {} then [] else [RemoveCall(stale)])
                            + StreakCalls(swept, TodayKey(now), |currentEntries|)
      ensures shownStreak == ReadStreak(storage.data).count
    {
      var _ := CleanupOldData(now);
      LoadTodayEntries(now);
      shownStreak := UpdateStreak(now);
    }

    /** `deleteEntry`: removes the entry at `index` and writes the list back under today's key. */
    method DeleteEntry(index: int, now: int)
      modifies this, storage
      ensures currentEntries == Splice(old(currentEntries), index)
      ensures storage.data == old(storage.data)[TodayKey(now) := Entries(currentEntries)]
      ensures storage.calls == old(storage.calls) + [SetCall(map[TodayKey(now) := Entries(currentEntries)])]
      ensures ReadStreak(storage.data) == ReadStreak(old(storage.data))
    {
      currentEntries := Splice(currentEntries, index);
      storage.Set(map[TodayKey(now) := Entries(currentEntries)]);
    }

    /**
     * The submit handler: trims the input, ignores blank or over-long text, refuses
     * when the day is full, otherwise appends the trimmed text, writes the whole
     * list under today's key and updates the streak.
     */
    method Submit(input: string, now: int) returns (outcome: SubmitOutcome)
      modifies this, storage
      ensures outcome == SubmitVerdict(input, |old(currentEntries)|)
      ensures outcome != Added ==>
        && currentEntries == old(currentEntries)
        && storage.data == old(storage.data)
        && storage.calls == old(storage.calls)
      ensures outcome == Added ==>
        && currentEntries == old(currentEntries) + [Trim(input)]
        && |currentEntries| <= MAX_ENTRIES_PER_DAY
        && storage.data == StreakWritten(old(storage.data)[TodayKey(now) := Entries(currentEntries)],
                                         TodayKey(now), |currentEntries|)
        && TodayKey(now) in storage.data
        && storage.data[TodayKey(now)] == Entries(currentEntries)
        && storage.calls == old(storage.calls) + [SetCall(map[TodayKey(now) := Entries(currentEntries)])]
                            + StreakCalls(old(storage.data)[TodayKey(now) := Entries(currentEntries)],
                                          TodayKey(now), |currentEntries|)
    {
      var text := Trim(input);
      if text == [] || |text| > MAX_CHARS {
        return Ignored;
      }
      if |currentEntries| >= MAX_ENTRIES_PER_DAY {
        return LimitReached;
      }
      currentEntries := currentEntries + [text];
      var today := TodayKey(now);
      storage.Set(map[today := Entries(currentEntries)]);
      ghost var written := storage.data;
      MergeOne(old(storage.data), today, Entries(currentEntries));
      var _ := UpdateStreak(now);
      StreakWrittenKeepsOtherKeys(written, today, |currentEntries|, today);
      outcome := Added;
    }
  }
}
