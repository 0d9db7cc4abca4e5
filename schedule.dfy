/** `scheduleAutoUpdate`'s weekly anchor on a local clock, and the timer
    handles the plugin keeps. */
module Schedule {
  import opened Wrappers
  import opened Settings

  const MsPerMinute := 60 * 1000
  const MsPerHour := 60 * MsPerMinute
  const MsPerDay := 24 * MsPerHour
  const MsPerWeek := 7 * MsPerDay

  /** `getDay()` of Thursday. */
  const Thursday := 4

  /** 18:04:00.000 as milliseconds into the day. */
  const AnchorMs := (18 * 60 + 4) * MsPerMinute

  /** The local day a time falls on, counted from 1970-01-01. */
  function DayIndex(t: int): int {
    t / MsPerDay
  }

  /** `getDay()`: 0 for Sunday; 1970-01-01 was a Thursday. */
  function DayOfWeek(day: int): (r: int)
    ensures 0 <= r < 7
  {
    (day + Thursday) % 7
  }

  /** Day 0, 1970-01-01, and every seventh day from it is a Thursday; day
      3, 1970-01-04, and every seventh day from it is a Sunday. */
  lemma WeekdaysFromEpoch(day: int)
    ensures DayOfWeek(day) == Thursday <==> day % 7 == 0
    ensures DayOfWeek(day) == 0 <==> day % 7 == 3
  {
  }

  /** A Thursday at 18:04:00.000. */
  predicate IsThursdayAnchor(t: int) {
    DayOfWeek(DayIndex(t)) == Thursday && t % MsPerDay == AnchorMs
  }

  /** `(4 + 7 - now.getDay()) % 7`: days from `weekday` on to Thursday. */
  function DaysUntilThursday(weekday: int): (r: int)
    requires 0 <= weekday < 7
    ensures 0 <= r < 7 && (weekday + r) % 7 == Thursday
  {
    (4 + 7 - weekday) % 7
  }

  /** The target of `scheduleAutoUpdate`: the Thursday of `now`'s week day
      arithmetic at 18:04, moved a week on when that is not after `now`. */
  function NextThursdayAnchor(now: int): int {
    var day := DayIndex(now);
    var thursday := (day + DaysUntilThursday(DayOfWeek(day))) * MsPerDay + AnchorMs;
    if thursday <= now then thursday + MsPerWeek else thursday
  }

  /** `msUntil`. */
  function MsUntilAnchor(now: int): int {
    NextThursdayAnchor(now) - now
  }

  /** Thursday anchors are exactly the times 18:04 into a week counted from
      1970-01-01. */
  lemma AnchorIsWeekPhase(t: int)
    ensures IsThursdayAnchor(t) <==> t % MsPerWeek == AnchorMs
  {
    var day := t / MsPerDay;
    var tod := t % MsPerDay;
    assert t == day * MsPerDay + tod;
    var week := day / 7;
    var dow := day % 7;
    assert day == week * 7 + dow;
    assert t == week * MsPerWeek + (dow * MsPerDay + tod);
    assert 0 <= dow * MsPerDay + tod < MsPerWeek;
    assert t % MsPerWeek == dow * MsPerDay + tod;
    assert DayIndex(t) == day;
    assert DayOfWeek(day) == Thursday <==> dow == 0;
    PhaseSplit(dow, tod);
  }

  /** A time into the week is 18:04 on its first day exactly when it is on
      day 0 of the week at 18:04. */
  lemma PhaseSplit(dow: int, tod: int)
    requires 0 <= dow < 7 && 0 <= tod < MsPerDay
    ensures dow * MsPerDay + tod == AnchorMs <==> dow == 0 && tod == AnchorMs
  {
    if dow > 0 {
      assert dow * MsPerDay >= MsPerDay;
    }
  }

  lemma DayAndTime(k: int, ms: int)
    requires 0 <= ms < MsPerDay
    ensures DayIndex(k * MsPerDay + ms) == k && (k * MsPerDay + ms) % MsPerDay == ms
  {
  }

  /** The Thursday the day arithmetic picks is an anchor, on `now`'s day or
      within the six days after it. */
  lemma CandidateIsAnchor(now: int)
    ensures var day := DayIndex(now);
      var thursday := (day + DaysUntilThursday(DayOfWeek(day))) * MsPerDay + AnchorMs;
      IsThursdayAnchor(thursday) && day * MsPerDay <= thursday < (day + 7) * MsPerDay
      && (thursday <= now ==> DaysUntilThursday(DayOfWeek(day)) == 0)
  {
    var day := DayIndex(now);
    var offset := DaysUntilThursday(DayOfWeek(day));
    DayAndTime(day + offset, AnchorMs);
    assert (day + offset + Thursday) % 7 == Thursday;
  }

  /** A week after an anchor is an anchor. */
  lemma AnchorWeekLater(t: int)
    requires IsThursdayAnchor(t)
    ensures IsThursdayAnchor(t + MsPerWeek)
  {
    var k := DayIndex(t);
    assert t == k * MsPerDay + AnchorMs;
    assert t + MsPerWeek == (k + 7) * MsPerDay + AnchorMs;
    DayAndTime(k + 7, AnchorMs);
  }

  /** The anchor comes strictly after `now` and at most a week later, and
      the anchor a week before it is not after `now`. */
  lemma NextThursdayAnchorBounds(now: int)
    ensures IsThursdayAnchor(NextThursdayAnchor(now))
    ensures now < NextThursdayAnchor(now) <= now + MsPerWeek
    ensures NextThursdayAnchor(now) - MsPerWeek <= now
  {
    var day := DayIndex(now);
    var thursday := (day + DaysUntilThursday(DayOfWeek(day))) * MsPerDay + AnchorMs;
    CandidateIsAnchor(now);
    DayAndTime(day, now % MsPerDay);
    assert day * MsPerDay <= now < day * MsPerDay + MsPerDay;
    AnchorWeekLater(thursday);
  }

  /** `msUntil` lies in (0, 7 days]. */
  lemma MsUntilAnchorBounds(now: int)
    ensures 0 < MsUntilAnchor(now) <= MsPerWeek
  {
    NextThursdayAnchorBounds(now);
  }

  /** No Thursday anchor lies strictly between `now` and the target. */
  lemma NextThursdayAnchorIsEarliest(now: int, a: int)
    requires IsThursdayAnchor(a) && now < a
    ensures NextThursdayAnchor(now) <= a
  {
    var r := NextThursdayAnchor(now);
    NextThursdayAnchorBounds(now);
    AnchorIsWeekPhase(r);
    AnchorIsWeekPhase(a);
    AnchorsAWeekApart(r, a);
  }

  /** Two times with the same phase in the week are a whole number of
      weeks apart, so one less than a week before the other is not before
      it. */
  lemma AnchorsAWeekApart(r: int, a: int)
    requires r % MsPerWeek == AnchorMs && a % MsPerWeek == AnchorMs
    requires r - MsPerWeek < a
    ensures r <= a
  {
    var qr := r / MsPerWeek;
    var qa := a / MsPerWeek;
    assert r == qr * MsPerWeek + AnchorMs;
    assert a == qa * MsPerWeek + AnchorMs;
  }

  /** When `now` is itself an anchor, the target is a full week later. */
  lemma AnchorNowWaitsAWeek(now: int)
    requires IsThursdayAnchor(now)
    ensures NextThursdayAnchor(now) == now + MsPerWeek
  {
    NextThursdayAnchorBounds(now);
    NextThursdayAnchorIsEarliest(now, now + MsPerWeek) by {
      AnchorIsWeekPhase(now);
      AnchorIsWeekPhase(now + MsPerWeek);
    }
    AnchorIsWeekPhase(now);
    AnchorIsWeekPhase(NextThursdayAnchor(now));
  }

  /** The first Friday: 1970-01-02 at noon waits for Thursday 1970-01-08
      at 18:04. */
  lemma FridayWaitsSixDays()
    ensures NextThursdayAnchor(MsPerDay + 12 * MsPerHour) == 7 * MsPerDay + AnchorMs
  {
    DayAndTime(1, 12 * MsPerHour);
    DayAndTime(7, AnchorMs);
  }

  // ---------------------------------------------------------------------
  // Timer handles

  /** What a timer does when it fires. */
  datatype Callback =
    | Refresh        // `() => this.fetchAndCreateNotes()`
    | StartWeekly    // the weekly timeout: refresh, then arm the 7-day interval

  datatype Timer = Timeout(delay: int, callback: Callback) | Interval(period: int, callback: Callback)

  /** The plugin's three handle fields together with the host's table of
      armed timers, which hands out fresh ids. */
  class PluginTimers {
    var intervalHandle: Option<nat>
    var timeoutHandle: Option<nat>
    var dailyHandle: Option<nat>
    var armed: map<nat, Timer>
    var nextId: nat

    /** The handles, as a set of ids. */
    function Handles(): set<nat>
      reads this
    {
      (if intervalHandle.Some? then {intervalHandle.value} else {})
      + (if timeoutHandle.Some? then {timeoutHandle.value} else {})
      + (if dailyHandle.Some? then {dailyHandle.value} else {})
    }

    /** Every armed timer is held by a handle and ids are fresh; while the
        weekly timeout is pending, no interval is held yet. */
    ghost predicate Valid()
      reads this
    {
      (forall id :: id in armed ==> id < nextId)
      && (forall id :: id in Handles() ==> id < nextId)
      && armed.Keys <= Handles()
      && (timeoutHandle.Some? && timeoutHandle.value in armed ==> intervalHandle.None?)
    }

    /** The fields as the plugin starts: every handle `null`, nothing
        armed. */
    constructor()
      ensures Valid() && armed == map[] && Handles() == {}
      ensures intervalHandle.None? && timeoutHandle.None? && dailyHandle.None?
    {
      intervalHandle := None;
      timeoutHandle := None;
      dailyHandle := None;
      armed := map[];
      nextId := 0;
    }

    /** `window.setTimeout` / `window.setInterval`: arm a timer under a
        fresh id. */
    method Arm(timer: Timer) returns (id: nat)
      requires forall i :: i in armed ==> i < nextId
      modifies this
      ensures id == old(nextId) && nextId == old(nextId) + 1
      ensures id !in old(armed)
      ensures armed == old(armed)[id := timer]
      ensures intervalHandle == old(intervalHandle) && timeoutHandle == old(timeoutHandle)
      ensures dailyHandle == old(dailyHandle)
    {
      id := nextId;
      armed := armed[id := timer];
      nextId := nextId + 1;
    }

    /** `clearTimeout` / `clearInterval`. */
    method Clear(id: nat)
      modifies this
      ensures armed == old(armed) - {id}
      ensures intervalHandle == old(intervalHandle) && timeoutHandle == old(timeoutHandle)
      ensures dailyHandle == old(dailyHandle) && nextId == old(nextId)
    {
      armed := armed - {id};
    }

    /** `scheduleAutoUpdate`: with the weekly schedule, a timeout that waits
        for the next Thursday anchor; otherwise an interval of
        `updateIntervalHours`. Called from `onload`, before any timer is
        held. */
    method ScheduleAutoUpdate(settings: Settings, now: int)
      requires Valid() && intervalHandle.None? && timeoutHandle.None?
      modifies this
      ensures Valid() && dailyHandle == old(dailyHandle)
      ensures settings.epicScheduled ==>
        intervalHandle.None? && timeoutHandle == Some(old(nextId))
        && armed == old(armed)[old(nextId) := Timeout(MsUntilAnchor(now), StartWeekly)]
      ensures !settings.epicScheduled ==>
        timeoutHandle.None? && intervalHandle == Some(old(nextId))
        && armed == old(armed)[old(nextId) := Interval(settings.updateIntervalHours * MsPerHour, Refresh)]
    {
      if settings.epicScheduled {
        var id := Arm(Timeout(MsUntilAnchor(now), StartWeekly));
        timeoutHandle := Some(id);
      } else {
        var id := Arm(Interval(settings.updateIntervalHours * MsPerHour, Refresh));
        intervalHandle := Some(id);
      }
    }

    /** `scheduleDailyUpdate`: an interval of `dailyUpdateInterval` hours. */
    method ScheduleDailyUpdate(settings: Settings)
      requires Valid() && dailyHandle.None?
      modifies this
      ensures Valid() && intervalHandle == old(intervalHandle) && timeoutHandle == old(timeoutHandle)
      ensures dailyHandle == Some(old(nextId))
      ensures armed == old(armed)[old(nextId) := Interval(settings.dailyUpdateInterval * MsPerHour, Refresh)]
    {
      var id := Arm(Interval(settings.dailyUpdateInterval * MsPerHour, Refresh));
      dailyHandle := Some(id);
    }

    /** The timers `onload` arms from fresh fields: the auto update when
        enabled, then the daily update when enabled. */
    method OnLoad(settings: Settings, now: int)
      requires Valid() && armed == map[] && Handles() == {}
      modifies this
      ensures Valid()
      ensures timeoutHandle.Some? <==> settings.autoUpdate && settings.epicScheduled
      ensures intervalHandle.Some? <==> settings.autoUpdate && !settings.epicScheduled
      ensures dailyHandle.Some? <==> settings.dailyUpdateEnabled
      ensures armed.Keys == Handles()
      ensures timeoutHandle.Some? ==> armed[timeoutHandle.value] == Timeout(MsUntilAnchor(now), StartWeekly)
      ensures intervalHandle.Some? ==>
        armed[intervalHandle.value] == Interval(settings.updateIntervalHours * MsPerHour, Refresh)
      ensures dailyHandle.Some? ==>
        armed[dailyHandle.value] == Interval(settings.dailyUpdateInterval * MsPerHour, Refresh)
      ensures intervalHandle.Some? && dailyHandle.Some? ==> intervalHandle.value != dailyHandle.value
      ensures timeoutHandle.Some? && dailyHandle.Some? ==> timeoutHandle.value != dailyHandle.value
    {
      if settings.autoUpdate {
        ScheduleAutoUpdate(settings, now);
      }
      if settings.dailyUpdateEnabled {
        ScheduleDailyUpdate(settings);
      }
    }

    /** The weekly timeout fires: it is no longer armed, and its callback
        arms the 7-day interval and keeps it in `intervalHandle`. */
    method FireWeeklyTimeout()
      requires Valid() && timeoutHandle.Some? && timeoutHandle.value in armed
      requires armed[timeoutHandle.value].Timeout? && armed[timeoutHandle.value].callback == StartWeekly
      modifies this
      ensures Valid() && timeoutHandle == old(timeoutHandle) && dailyHandle == old(dailyHandle)
      ensures intervalHandle == Some(old(nextId))
      ensures armed == (old(armed) - {old(timeoutHandle.value)})[old(nextId) := Interval(MsPerWeek, Refresh)]
    {
      armed := armed - {timeoutHandle.value};
      var id := Arm(Interval(MsPerWeek, Refresh));
      intervalHandle := Some(id);
    }

    /** `onunload`: clear every handle that is set. Every armed timer is
        held by a handle, so none is left armed. */
    method OnUnload()
      requires Valid()
      modifies this
      ensures armed == old(armed) - old(Handles())
      ensures armed == map[]
      ensures intervalHandle == old(intervalHandle) && timeoutHandle == old(timeoutHandle)
      ensures dailyHandle == old(dailyHandle)
    {
      if intervalHandle.Some? {
        Clear(intervalHandle.value);
      }
      if timeoutHandle.Some? {
        Clear(timeoutHandle.value);
      }
      if dailyHandle.Some? {
        Clear(dailyHandle.value);
      }
      assert armed.Keys == {};
    }
  }
}
