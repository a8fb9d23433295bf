/**
 * The planner screen of components/Planner.tsx: the itinerary it holds, the
 * selected day and the pending deletion, and the handlers that re-date days,
 * add, delete and reorder them, and merge fetched weather into them. The
 * network is a `Provider` and the wall clock the local day number `today`.
 */
module Planner {

  import opened Wrappers
  import opened Text
  import opened Calendar
  import opened TripTypes
  import opened Lists
  import opened Weather

  /** The placeholder location of an added day; such a day is never looked up. */
  const NewLocation: string := "New Location"

  /** What the source builds from an `Invalid Date`. */
  const NaNIso: string := "NaN-NaN-NaN"
  const NaNDisplay: string := "NaN/NaN (undefined)"

  // ---------------------------------------------------------------- dates

  /** `formatDateDisplay`: `M/D (weekday)` of the local date the text names. */
  function FormatDateDisplay(date: string): string {
    match DayNumberOf(date)
    case Some(n) => FormatDisplay(n)
    case None => NaNDisplay
  }

  /** Showing the ISO text of a day shows that day. */
  lemma DisplayOfIso(n: int)
    requires FromDayNumber(n).year >= 0
    ensures FormatDateDisplay(FormatIso(n)) == FormatDisplay(n)
  {
    ParseFormatIso(n);
  }

  /** The day `i` days after the anchor; no day when the anchor text is unreadable. */
  function Offset(anchor: Option<int>, i: int): Option<int> {
    if anchor.Some? then Some(anchor.value + i) else None
  }

  /** The ISO text the source writes for a day, `NaN` parts for an `Invalid Date`. */
  function IsoOf(day: Option<int>): string {
    if day.Some? then FormatIso(day.value) else NaNIso
  }

  /** The display text of `IsoOf(day)`, with the `Invalid Date` case written out. */
  function DisplayOf(day: Option<int>): string {
    if day.Some? then FormatDateDisplay(FormatIso(day.value)) else NaNDisplay
  }

  /** The display text of a re-dated day is the display of its new date, as the source computes it. */
  lemma DisplayOfIsDisplayOfIso(day: Option<int>)
    ensures DisplayOf(day) == FormatDateDisplay(IsoOf(day))
  {
    if day.None? {
      NaNUnreadable();
    }
  }

  /** A day given the date `day`. */
  function Redated(d: Day, day: Option<int>): Day {
    d.(date := IsoOf(day), displayDate := DisplayOf(day))
  }

  /** The re-dating map shared by the start-date, delete and reorder handlers: day `i` goes to the anchor plus `i`. */
  function Redate(days: seq<Day>, anchor: Option<int>): (r: seq<Day>)
    ensures |r| == |days|
  {
    seq(|days|, i requires 0 <= i < |days| => Redated(days[i], Offset(anchor, i)))
  }

  /** Re-dating a day keeps all but its dates, and its new date reads back as `day`. */
  lemma RedatedSpec(d: Day, day: Option<int>)
    requires day.Some? && day.value >= DaysBeforeYear(0)
    ensures var r := Redated(d, day);
      && r.(date := d.date, displayDate := d.displayDate) == d
      && DayNumberOf(r.date) == day
      && r.displayDate == FormatDateDisplay(r.date)
  {
    NonNegativeYear(day.value);
    ParseFormatIso(day.value);
    DisplayOfIsDisplayOfIso(day);
  }

  /**
   * Re-dating keeps every day's identity, place, weather and activities and its
   * position, and gives day `i` the date `i` days after the anchor, so that
   * consecutive days are consecutive dates.
   */
  lemma RedateSpec(days: seq<Day>, anchor: Option<int>)
    requires anchor.Some? && anchor.value >= DaysBeforeYear(0)
    ensures var r := Redate(days, anchor);
      && (forall i :: 0 <= i < |r| ==>
            r[i].(date := days[i].date, displayDate := days[i].displayDate) == days[i]
            && DayNumberOf(r[i].date) == Some(anchor.value + i)
            && r[i].displayDate == FormatDateDisplay(r[i].date))
      && (forall i :: 0 <= i < |r| - 1 ==> DayNumberOf(r[i + 1].date).value == DayNumberOf(r[i].date).value + 1)
  {
    RedateDates(days, anchor);
    var r := Redate(days, anchor);
    forall i | 0 <= i < |r| - 1
      ensures DayNumberOf(r[i + 1].date).value == DayNumberOf(r[i].date).value + 1
    {
      assert DayNumberOf(r[i].date) == Some(anchor.value + i);
      assert DayNumberOf(r[i + 1].date) == Some(anchor.value + i + 1);
    }
  }

  lemma RedateDates(days: seq<Day>, anchor: Option<int>)
    requires anchor.Some? && anchor.value >= DaysBeforeYear(0)
    ensures var r := Redate(days, anchor);
      forall i :: 0 <= i < |r| ==>
        r[i].(date := days[i].date, displayDate := days[i].displayDate) == days[i]
        && DayNumberOf(r[i].date) == Some(anchor.value + i)
        && r[i].displayDate == FormatDateDisplay(r[i].date)
  {
    var r := Redate(days, anchor);
    forall i | 0 <= i < |r|
      ensures r[i].(date := days[i].date, displayDate := days[i].displayDate) == days[i]
      ensures DayNumberOf(r[i].date) == Some(anchor.value + i) && r[i].displayDate == FormatDateDisplay(r[i].date)
    {
      RedateAt(days, anchor, i);
    }
  }

  lemma RedateAt(days: seq<Day>, anchor: Option<int>, i: int)
    requires anchor.Some? && anchor.value >= DaysBeforeYear(0) && 0 <= i < |days|
    ensures var d := Redate(days, anchor)[i];
      && d.(date := days[i].date, displayDate := days[i].displayDate) == days[i]
      && DayNumberOf(d.date) == Some(anchor.value + i)
      && d.displayDate == FormatDateDisplay(d.date)
  {
    var day := Offset(anchor, i);
    assert Redate(days, anchor)[i] == Redated(days[i], day);
    RedatedSpec(days[i], day);
  }

  lemma NaNUnreadable()
    ensures DayNumberOf(NaNIso).None?
    ensures FormatDateDisplay(NaNIso) == NaNDisplay
  {
    NaNNoDate();
  }

  lemma NaNNoDate()
    ensures ParseIso(NaNIso).None?
  {
    MissingCharAbsent("NaN", "-", '-');
    assert NaNIso == "NaN" + "-" + "NaN-NaN";
    SplitAfterPiece("NaN", "-", "NaN-NaN");
    assert !IsDigit('N');
  }

  /** An anchor text the date parser cannot read gives every day the `NaN` texts. */
  lemma RedateUnreadable(days: seq<Day>)
    ensures forall i :: 0 <= i < |days| ==>
      Redate(days, None)[i].date == NaNIso && Redate(days, None)[i].displayDate == NaNDisplay
  {
  }

  /** The start-date handler's map: re-date, and drop every day and activity weather record. */
  function Restarted(days: seq<Day>, anchor: Option<int>): (r: seq<Day>)
    ensures |r| == |days|
    ensures forall i :: 0 <= i < |r| ==> r[i].weatherInfo.None? && |r[i].activities| == |days[i].activities|
    ensures forall i, j :: 0 <= i < |r| && 0 <= j < |r[i].activities| ==>
      r[i].activities[j] == days[i].activities[j].(weatherInfo := None)
  {
    seq(|days|, i requires 0 <= i < |days| =>
      Redated(days[i], Offset(anchor, i)).(weatherInfo := None, activities := Cleared(days[i].activities)))
  }

  function Cleared(acts: seq<Activity>): (r: seq<Activity>)
    ensures |r| == |acts| && forall j :: 0 <= j < |r| ==> r[j] == acts[j].(weatherInfo := None)
  {
    seq(|acts|, j requires 0 <= j < |acts| => acts[j].(weatherInfo := None))
  }

  // ---------------------------------------------------------------- weather merge

  /** A day whose location is set and is not the placeholder gets a day-level lookup. */
  predicate LooksUpDay(location: string) {
    location != "" && location != NewLocation
  }

  /** The first activity weather record, as `find(a => a.weatherInfo)` gives it. */
  function FirstWeather(acts: seq<Activity>): (r: Option<WeatherData>)
    ensures r.None? <==> forall j :: 0 <= j < |acts| ==> acts[j].weatherInfo.None?
    ensures r.Some? ==> exists j :: (0 <= j < |acts| && acts[j].weatherInfo == r
      && forall k :: 0 <= k < j ==> acts[k].weatherInfo.None?)
    decreases |acts|
  {
    if |acts| == 0 then None
    else if acts[0].weatherInfo.Some? then acts[0].weatherInfo
    else FirstWeather(acts[1..])
  }

  /** One activity of the bulk refresh: a record replaces the old one only when the lookup returns one. */
  function RefreshedActivity(p: Provider, today: int, date: string, a: Activity): (r: Activity)
    ensures r.(weatherInfo := a.weatherInfo) == a
    ensures r.weatherInfo != a.weatherInfo ==>
      HasText(a.location) && r.weatherInfo == FetchActivityWeather(p, today, a.location.value, date, a.time)
    ensures r.weatherInfo != a.weatherInfo ==> r.weatherInfo.Some?
    ensures HasText(a.location) && FetchActivityWeather(p, today, a.location.value, date, a.time).Some? ==>
      r.weatherInfo == FetchActivityWeather(p, today, a.location.value, date, a.time)
  {
    if HasText(a.location) then
      match FetchActivityWeather(p, today, a.location.value, date, a.time)
      case Some(w) => a.(weatherInfo := Some(w))
      case None => a
    else a
  }

  /**
   * One day of the bulk refresh (`updateWeatherForList`): the day record is
   * replaced by a successful day lookup, activities are refreshed one by one,
   * and a day still without a record takes its first refreshed activity's.
   */
  function RefreshedDay(p: Provider, today: int, d: Day): (r: Day)
    ensures r.(weatherInfo := d.weatherInfo, activities := d.activities) == d
    ensures |r.activities| == |d.activities|
    ensures forall j :: 0 <= j < |d.activities| ==> r.activities[j] == RefreshedActivity(p, today, d.date, d.activities[j])
    ensures LooksUpDay(d.location) && FetchWeatherForDay(p, today, d.location, d.date).Some? ==>
      r.weatherInfo == FetchWeatherForDay(p, today, d.location, d.date)
    ensures r.weatherInfo.None? ==> forall j :: 0 <= j < |r.activities| ==> r.activities[j].weatherInfo.None?
    ensures r.weatherInfo != d.weatherInfo ==>
      (LooksUpDay(d.location) && r.weatherInfo == FetchWeatherForDay(p, today, d.location, d.date))
      || (d.weatherInfo.None? && r.weatherInfo == FirstWeather(r.activities))
    ensures r.weatherInfo != d.weatherInfo ==> r.weatherInfo.Some?
  {
    var fetched := if LooksUpDay(d.location) then FetchWeatherForDay(p, today, d.location, d.date) else None;
    var dayWeather := if fetched.Some? then fetched else d.weatherInfo;
    var acts := seq(|d.activities|, j requires 0 <= j < |d.activities| => RefreshedActivity(p, today, d.date, d.activities[j]));
    d.(weatherInfo := if dayWeather.None? then FirstWeather(acts) else dayWeather, activities := acts)
  }

  function RefreshedList(p: Provider, today: int, days: seq<Day>): (r: seq<Day>)
    ensures |r| == |days|
  {
    seq(|days|, i requires 0 <= i < |days| => RefreshedDay(p, today, days[i]))
  }

  /** One day of `updateWeatherForList`: the day record is reassigned as each lookup answers. */
  method RefreshDay(p: Provider, today: int, day: Day) returns (r: Day)
    ensures r == RefreshedDay(p, today, day)
  {
    var dayWeather := day.weatherInfo;
    if LooksUpDay(day.location) {
      var w := FetchWeatherForDay(p, today, day.location, day.date);
      if w.Some? {
        dayWeather := w;
      }
    }
    var updatedActivities := seq(|day.activities|, j requires 0 <= j < |day.activities| =>
      RefreshedActivity(p, today, day.date, day.activities[j]));
    if dayWeather.None? {
      var first := FirstWeather(updatedActivities);
      if first.Some? {
        dayWeather := first;
      }
    }
    r := day.(weatherInfo := dayWeather, activities := updatedActivities);
  }

  /** The days of `updateWeatherForList`, refreshed one after another. */
  method RefreshAll(p: Provider, today: int, list: seq<Day>) returns (updated: seq<Day>)
    ensures updated == RefreshedList(p, today, list)
  {
    updated := [];
    var i := 0;
    while i < |list|
      invariant 0 <= i <= |list| && |updated| == i
      invariant forall k :: 0 <= k < i ==> updated[k] == RefreshedDay(p, today, list[k])
    {
      var d := RefreshDay(p, today, list[i]);
      updated := updated + [d];
      i := i + 1;
    }
  }

  /** The bulk refresh keeps the days, their order and their activities' identities; only weather records change. */
  lemma RefreshKeepsShape(p: Provider, today: int, days: seq<Day>)
    ensures var r := RefreshedList(p, today, days);
      forall i :: 0 <= i < |r| ==>
        && r[i].(weatherInfo := days[i].weatherInfo, activities := days[i].activities) == days[i]
        && |r[i].activities| == |days[i].activities|
        && forall j :: 0 <= j < |r[i].activities| ==>
             r[i].activities[j].(weatherInfo := days[i].activities[j].weatherInfo) == days[i].activities[j]
  {
  }

  /** The bulk refresh never loses a record: a day or activity that had one still has one. */
  lemma RefreshKeepsRecords(p: Provider, today: int, days: seq<Day>)
    ensures var r := RefreshedList(p, today, days);
      forall i :: 0 <= i < |r| ==>
        && (days[i].weatherInfo.Some? ==> r[i].weatherInfo.Some?)
        && forall j :: 0 <= j < |r[i].activities| && days[i].activities[j].weatherInfo.Some? ==>
             r[i].activities[j].weatherInfo.Some?
  {
  }

  /**
   * After a new start date every day sits at its offset from the start, and
   * every weather record it holds was just looked up: its own, or its first
   * activity's.
   */
  lemma RestartSpec(p: Provider, today: int, days: seq<Day>, anchor: Option<int>)
    requires anchor.Some? && anchor.value >= DaysBeforeYear(0)
    ensures var r := RefreshedList(p, today, Restarted(days, anchor));
      forall i :: 0 <= i < |r| ==>
        && r[i].id == days[i].id && r[i].location == days[i].location
        && DayNumberOf(r[i].date) == Some(anchor.value + i)
        && r[i].displayDate == FormatDateDisplay(r[i].date)
        && (r[i].weatherInfo.Some? ==>
              (LooksUpDay(r[i].location) && r[i].weatherInfo == FetchWeatherForDay(p, today, r[i].location, r[i].date))
              || r[i].weatherInfo == FirstWeather(r[i].activities))
  {
    var restarted := Restarted(days, anchor);
    var r := RefreshedList(p, today, restarted);
    RedateSpec(days, anchor);
    forall i | 0 <= i < |r|
      ensures r[i].date == Redate(days, anchor)[i].date && r[i].displayDate == Redate(days, anchor)[i].displayDate
    {
      assert restarted[i].date == Redate(days, anchor)[i].date;
    }
  }

  /** A day in the startup check's window whose record is marked as a reference. */
  predicate IsStale(d: Day, today: int) {
    var diff := DaysDiff(d.date, today);
    diff.Some? && -1 <= diff.value <= 16 && d.weatherInfo.Some? && d.weatherInfo.value.isReference == Some(true)
  }

  predicate NeedsRefresh(days: seq<Day>, today: int) {
    exists i :: 0 <= i < |days| && IsStale(days[i], today)
  }

  /**
   * The startup window reaches two days past the forecast horizon: a stale day
   * 15 or 16 days ahead keeps its reference record when the lookup fails, and
   * is looked up in the archive again when it succeeds, so it is still stale
   * after any refresh and the next start refreshes again.
   */
  lemma StaleBeyondForecast(p: Provider, today: int, d: Day)
    requires IsStale(d, today) && DaysDiff(d.date, today).value >= 15
    ensures IsStale(RefreshedDay(p, today, d), today)
  {
    var r := RefreshedDay(p, today, d);
    assert r.date == d.date;
    if r.weatherInfo != d.weatherInfo {
      assert r.weatherInfo == FetchWeatherForDay(p, today, d.location, d.date);
    }
  }

  // ---------------------------------------------------------------- saving one day

  /** The previous version of an activity, looked up by id in the previous version of its day. */
  function PreviousActivity(oldDay: Option<Day>, a: Activity): Option<Activity> {
    if oldDay.Some? then Find(oldDay.value.activities, ActivityId, a.id) else None
  }

  /** An activity with a place is looked up when it is new, moved, re-timed or has no record yet. */
  predicate ShouldFetchActivity(oldDay: Option<Day>, a: Activity) {
    var prev := PreviousActivity(oldDay, a);
    HasText(a.location)
    && (prev.None? || prev.value.location != a.location || prev.value.time != a.time || a.weatherInfo.None?)
  }

  function ProcessedActivity(p: Provider, today: int, date: string, oldDay: Option<Day>, a: Activity): (r: Activity)
    ensures r.(weatherInfo := a.weatherInfo) == a
    ensures r.weatherInfo != a.weatherInfo ==>
      ShouldFetchActivity(oldDay, a) && r.weatherInfo == FetchActivityWeather(p, today, a.location.value, date, a.time)
    ensures r.weatherInfo != a.weatherInfo ==> r.weatherInfo.Some?
    ensures ShouldFetchActivity(oldDay, a) && FetchActivityWeather(p, today, a.location.value, date, a.time).Some? ==>
      r.weatherInfo == FetchActivityWeather(p, today, a.location.value, date, a.time)
  {
    if ShouldFetchActivity(oldDay, a) then
      match FetchActivityWeather(p, today, a.location.value, date, a.time)
      case Some(w) => a.(weatherInfo := Some(w))
      case None => a
    else a
  }

  function ProcessedActivities(p: Provider, today: int, date: string, oldDay: Option<Day>, acts: seq<Activity>): (r: seq<Activity>)
    ensures |r| == |acts|
    ensures forall j :: 0 <= j < |r| ==> r[j] == ProcessedActivity(p, today, date, oldDay, acts[j])
  {
    seq(|acts|, j requires 0 <= j < |acts| => ProcessedActivity(p, today, date, oldDay, acts[j]))
  }

  /** The day is looked up again when it has no record or its place or date changed. */
  predicate DayLookedUp(oldDay: Option<Day>, u: Day) {
    var changed := oldDay.None? || oldDay.value.location != u.location || oldDay.value.date != u.date;
    (u.weatherInfo.None? || changed) && LooksUpDay(u.location)
  }

  /** The day record after the lookup and the backfill from the saved activities, and whether it was set. */
  function SavedDayWeather(p: Provider, today: int, oldDay: Option<Day>, u: Day): (Option<WeatherData>, bool) {
    var fetched := if DayLookedUp(oldDay, u) then FetchWeatherForDay(p, today, u.location, u.date) else None;
    if fetched.Some? then (fetched, true)
    else if u.weatherInfo.None? && FirstWeather(u.activities).Some? then (FirstWeather(u.activities), true)
    else (u.weatherInfo, false)
  }

  /**
   * What the day-save handler leaves in the itinerary for the saved day `u`,
   * `oldDay` being the version it replaced: the saved day with the looked-up
   * day record and activity records merged in.
   */
  function SavedDay(p: Provider, today: int, oldDay: Option<Day>, u: Day): (r: Day)
    ensures r.(weatherInfo := u.weatherInfo, activities := u.activities) == u
    ensures |r.activities| == |u.activities|
    ensures forall j :: 0 <= j < |u.activities| ==> r.activities[j] == ProcessedActivity(p, today, u.date, oldDay, u.activities[j])
    ensures DayLookedUp(oldDay, u) && FetchWeatherForDay(p, today, u.location, u.date).Some? ==>
      r.weatherInfo == FetchWeatherForDay(p, today, u.location, u.date)
    ensures r.weatherInfo != u.weatherInfo ==>
      (DayLookedUp(oldDay, u) && r.weatherInfo == FetchWeatherForDay(p, today, u.location, u.date))
      || (u.weatherInfo.None? && r.weatherInfo == FirstWeather(u.activities))
    ensures r.weatherInfo.None? ==> FirstWeather(u.activities).None?
    ensures r.weatherInfo != u.weatherInfo ==> r.weatherInfo.Some?
  {
    u.(weatherInfo := SavedDayWeather(p, today, oldDay, u).0,
       activities := ProcessedActivities(p, today, u.date, oldDay, u.activities))
  }

  /** No two activities of a day share an id. */
  predicate UniqueActivityIds(acts: seq<Activity>) {
    forall i, j :: 0 <= i < j < |acts| ==> acts[i].id != acts[j].id
  }

  lemma FindUnique(acts: seq<Activity>, j: int)
    requires UniqueActivityIds(acts) && 0 <= j < |acts|
    ensures Find(acts, ActivityId, acts[j].id) == Some(acts[j])
  {
    assert ActivityId(acts[j]) == acts[j].id;
  }

  /**
   * Saving the day the handler left behind, unedited, changes nothing, once
   * that day has a record or none of its activities has one; lookups are
   * answered as before.
   */
  lemma SavedDaySettles(p: Provider, today: int, oldDay: Option<Day>, u: Day)
    requires UniqueActivityIds(u.activities)
    requires var m := SavedDay(p, today, oldDay, u); m.weatherInfo.Some? || FirstWeather(m.activities).None?
    ensures var m := SavedDay(p, today, oldDay, u); SavedDay(p, today, Some(m), m) == m
  {
    var m := SavedDay(p, today, oldDay, u);
    assert UniqueActivityIds(m.activities) by {
      forall i, j | 0 <= i < j < |m.activities| ensures m.activities[i].id != m.activities[j].id {
        assert m.activities[i].id == u.activities[i].id && m.activities[j].id == u.activities[j].id;
      }
    }
    forall j | 0 <= j < |m.activities|
      ensures ProcessedActivity(p, today, m.date, Some(m), m.activities[j]) == m.activities[j]
    {
      var a, b := u.activities[j], m.activities[j];
      FindUnique(m.activities, j);
      assert PreviousActivity(Some(m), b) == Some(b);
      if ShouldFetchActivity(Some(m), b) {
        assert b.weatherInfo.None?;
        assert b.weatherInfo == a.weatherInfo;
      }
    }
    assert SavedDay(p, today, Some(m), m).activities == m.activities;
    if m.weatherInfo.None? {
      assert !DayLookedUp(oldDay, u) || FetchWeatherForDay(p, today, u.location, u.date).None?;
    }
  }

  /**
   * The backfill reads the activities as saved, not as refreshed: a day left
   * without a record while a refreshed activity got one takes that record
   * only on the next save.
   */
  lemma BackfillLags(p: Provider, today: int, oldDay: Option<Day>, u: Day)
    requires var m := SavedDay(p, today, oldDay, u); m.weatherInfo.None? && FirstWeather(m.activities).Some?
    ensures var m := SavedDay(p, today, oldDay, u);
      SavedDay(p, today, Some(m), m).weatherInfo == FirstWeather(m.activities)
  {
  }

  // ---------------------------------------------------------------- the screen state

  /** The day a new day follows: the calendar day after the last day, or the given day when there is none. */
  function AddedDay(days: seq<Day>, newId: string, todayIso: string): (r: Day)
    ensures r.id == newId && r.location == NewLocation && r.activities == [] && r.weatherInfo.None? && r.subtitle.None?
  {
    var blank := Day(newId, "", "", NewLocation, None, None, []);
    if |days| == 0 then blank.(date := todayIso, displayDate := FormatDateDisplay(todayIso))
    else Redated(blank, Offset(DayNumberOf(days[|days| - 1].date), 1))
  }

  /** An added day is dated the calendar day after the last day, with month and year rollover. */
  lemma AddedDayFollows(days: seq<Day>, newId: string, todayIso: string, last: Ymd)
    requires |days| > 0 && ValidYmd(last) && last.year >= 0 && days[|days| - 1].date == FormatYmd(last)
    ensures var r := AddedDay(days, newId, todayIso);
      && r.date == FormatYmd(Following(last))
      && r.displayDate == FormatDateDisplay(r.date)
  {
    AddedDayDates(days, newId, todayIso);
    DayAfterLast(days, last);
    FollowingIso(last);
    DisplayOfIsDisplayOfIso(Some(DayNumber(last) + 1));
  }

  lemma AddedDayDates(days: seq<Day>, newId: string, todayIso: string)
    requires |days| > 0
    ensures var day := Offset(DayNumberOf(days[|days| - 1].date), 1);
      AddedDay(days, newId, todayIso).date == IsoOf(day) && AddedDay(days, newId, todayIso).displayDate == DisplayOf(day)
  {
  }

  lemma DayAfterLast(days: seq<Day>, last: Ymd)
    requires |days| > 0 && ValidYmd(last) && last.year >= 0 && days[|days| - 1].date == FormatYmd(last)
    ensures Offset(DayNumberOf(days[|days| - 1].date), 1) == Some(DayNumber(last) + 1)
  {
    ParseFormatYmd(last);
  }

  lemma FollowingIso(last: Ymd)
    requires ValidYmd(last)
    ensures IsoOf(Some(DayNumber(last) + 1)) == FormatYmd(Following(last))
  {
    FollowingIsNextNumber(last);
    SameDayNumber(FromDayNumber(DayNumber(last) + 1), Following(last));
  }

  /** The re-dating of the days left after a deletion starts at the first surviving day. */
  function AfterDeletion(remaining: seq<Day>): (r: seq<Day>)
    requires |remaining| > 0
    ensures |r| == |remaining|
  {
    Redate(remaining, DayNumberOf(remaining[0].date))
  }

  /** The re-dating of a reorder starts at the first day as it was before the move. */
  function AfterMove(days: seq<Day>, from: nat, to: nat): (r: seq<Day>)
    requires from < |days| && to < |days|
    ensures |r| == |days|
  {
    Redate(Move(days, from, to), DayNumberOf(days[0].date))
  }

  /** Days dated one after another from the first. */
  predicate Consecutive(days: seq<Day>) {
    |days| > 0 ==> days == Redate(days, DayNumberOf(days[0].date))
  }

  /** A reorder of consecutive days moves the contents and keeps the column of dates. */
  lemma MoveKeepsDates(days: seq<Day>, from: nat, to: nat)
    requires from < |days| && to < |days| && Consecutive(days)
    ensures var r := AfterMove(days, from, to);
      forall i :: 0 <= i < |r| ==> r[i].date == days[i].date && r[i].displayDate == days[i].displayDate
  {
    var r := AfterMove(days, from, to);
    var anchor := DayNumberOf(days[0].date);
    forall i | 0 <= i < |r| ensures r[i].date == days[i].date && r[i].displayDate == days[i].displayDate {
      assert days[i] == Redated(days[i], Offset(anchor, i));
    }
  }

  /**
   * A reorder puts the moved day at `to`, shifts the days between the two
   * positions by one and leaves the others where they were; only dates change.
   */
  lemma AfterMoveSpec(days: seq<Day>, from: nat, to: nat)
    requires from < |days| && to < |days|
    ensures var r := AfterMove(days, from, to);
      && r[to].(date := days[from].date, displayDate := days[from].displayDate) == days[from]
      && (forall i :: 0 <= i < |r| && i < from && i < to ==>
            r[i].(date := days[i].date, displayDate := days[i].displayDate) == days[i])
      && (forall i :: 0 <= i < |r| && i > from && i > to ==>
            r[i].(date := days[i].date, displayDate := days[i].displayDate) == days[i])
      && (forall i :: from <= i < to ==>
            r[i].(date := days[i + 1].date, displayDate := days[i + 1].displayDate) == days[i + 1])
      && (forall i :: to < i <= from ==>
            r[i].(date := days[i - 1].date, displayDate := days[i - 1].displayDate) == days[i - 1])
      && multiset(Move(days, from, to)) == multiset(days)
  {
    MoveAt(days, from, to);
    MovePermutes(days, from, to);
  }

  /** Re-dating from the anchor of consecutive days gives the same column of dates. */
  lemma SameAnchorSameDates(days: seq<Day>, others: seq<Day>, anchor: Option<int>)
    requires days == Redate(days, anchor) && |others| <= |days|
    ensures var r := Redate(others, anchor);
      forall i :: 0 <= i < |r| ==> r[i].date == days[i].date && r[i].displayDate == days[i].displayDate
  {
    forall i | 0 <= i < |others|
      ensures Redated(others[i], Offset(anchor, i)).date == days[i].date
      ensures Redated(others[i], Offset(anchor, i)).displayDate == days[i].displayDate
    {
      assert days[i] == Redated(days[i], Offset(anchor, i));
    }
  }

  /** Deleting a day other than the first from consecutive days closes the gap: the survivors take the first dates. */
  lemma DeletionClosesGap(days: seq<Day>, id: string)
    requires Consecutive(days) && |days| > 0 && days[0].id != id
    ensures var r := AfterDeletion(Without(days, DayId, id));
      forall i :: 0 <= i < |r| ==> r[i].date == days[i].date && r[i].displayDate == days[i].displayDate
  {
    var remaining := Without(days, DayId, id);
    var first := days[0].date;
    assert remaining[0].date == first by {
      assert remaining == [days[0]] + Without(days[1..], DayId, id);
    }
    var anchor := DayNumberOf(first);
    assert days == Redate(days, anchor);
    SameAnchorSameDates(days, remaining, anchor);
  }

  /**
   * Deleting the first of consecutive days re-dates from the first survivor,
   * which already carries the second date: every survivor keeps its own date,
   * so the trip now starts a day later (dates from year 0 on, or unreadable).
   */
  lemma DeletingFirstShiftsStart(days: seq<Day>)
    requires Consecutive(days) && |days| > 1
    requires forall i :: 1 <= i < |days| ==> days[i].id != days[0].id
    requires DayNumberOf(days[0].date).None? || DayNumberOf(days[0].date).value >= DaysBeforeYear(0)
    ensures Without(days, DayId, days[0].id) == days[1..]
    ensures AfterDeletion(Without(days, DayId, days[0].id)) == days[1..]
  {
    WithoutFirst(days);
    var anchor := DayNumberOf(days[0].date);
    DatedAt(days, anchor, 0);
    RedatedReadsBack(days[1], Offset(anchor, 1));
    ShiftedRedate(days, anchor);
    assert days[1..][0] == days[1];
  }

  lemma WithoutFirst(days: seq<Day>)
    requires |days| > 0
    requires forall i :: 1 <= i < |days| ==> days[i].id != days[0].id
    ensures Without(days, DayId, days[0].id) == days[1..]
  {
    var id := days[0].id;
    var rest := days[1..];
    assert DayId(days[0]) == id;
    assert forall i :: 0 <= i < |rest| ==> DayId(rest[i]) != id;
    WithoutAbsent(rest, DayId, id);
  }

  /** Day `i + 1` of days dated from `anchor` carries the date `i + 1` days after it. */
  lemma DatedAt(days: seq<Day>, anchor: Option<int>, i: nat)
    requires days == Redate(days, anchor) && i + 1 < |days|
    ensures days[i + 1] == Redated(days[i + 1], Offset(anchor, i + 1))
  {
  }

  /** A day that carries the date of `day` reads back as `day`. */
  lemma RedatedReadsBack(d: Day, day: Option<int>)
    requires d == Redated(d, day)
    requires day.None? || day.value >= DaysBeforeYear(0)
    ensures DayNumberOf(d.date) == day
  {
    if day.Some? {
      RedatedSpec(d, day);
    } else {
      NaNUnreadable();
    }
  }

  lemma OffsetShift(anchor: Option<int>, i: nat)
    ensures Offset(anchor, i + 1) == Offset(Offset(anchor, 1), i)
  {
  }

  lemma RedateOfTail(days: seq<Day>, next: Option<int>, i: nat)
    requires i + 1 < |days|
    ensures Redate(days[1..], next)[i] == Redated(days[i + 1], Offset(next, i))
  {
  }

  lemma RedatedSame(d: Day, x: Option<int>, y: Option<int>)
    requires d == Redated(d, x) && x == y
    ensures Redated(d, y) == d
  {
  }

  /** Days dated from `anchor`, less the first, are dated from the day after it. */
  lemma ShiftedRedate(days: seq<Day>, anchor: Option<int>)
    requires days == Redate(days, anchor) && |days| > 1
    ensures days[1..] == Redate(days[1..], Offset(anchor, 1))
  {
    var rest := days[1..];
    var next := Offset(anchor, 1);
    forall i: nat | i < |rest|
      ensures Redate(rest, next)[i] == rest[i]
    {
      DatedAt(days, anchor, i);
      OffsetShift(anchor, i);
      RedateOfTail(days, next, i);
      RedatedSame(days[i + 1], Offset(anchor, i + 1), Offset(next, i));
    }
  }

  /** The planner screen's state. */
  class PlannerScreen {
    var itinerary: seq<Day>
    var selectedDayId: string
    var dayToDelete: Option<string>
    var isDeleteModalOpen: bool

    /** The saved itinerary when there is one, else a copy of the demo itinerary. */
    constructor (saved: Option<seq<Day>>, demo: seq<Day>)
      ensures itinerary == (if saved.Some? then saved.value else demo)
      ensures selectedDayId == "" && dayToDelete.None? && !isDeleteModalOpen
    {
      itinerary := if saved.Some? then saved.value else demo;
      selectedDayId := "";
      dayToDelete := None;
      isDeleteModalOpen := false;
    }

    /** With no day selected, the first day is. */
    method SelectFirst()
      modifies this
      ensures selectedDayId == (if old(selectedDayId) == "" && |itinerary| > 0 then itinerary[0].id else old(selectedDayId))
      ensures itinerary == old(itinerary) && dayToDelete == old(dayToDelete) && isDeleteModalOpen == old(isDeleteModalOpen)
    {
      if selectedDayId == "" && |itinerary| > 0 {
        selectedDayId := itinerary[0].id;
      }
    }

    /** `updateWeatherForList`: the refreshed list replaces the itinerary. */
    method UpdateWeatherForList(list: seq<Day>, p: Provider, today: int)
      modifies this
      ensures itinerary == RefreshedList(p, today, list)
      ensures selectedDayId == old(selectedDayId) && dayToDelete == old(dayToDelete) && isDeleteModalOpen == old(isDeleteModalOpen)
    {
      itinerary := RefreshAll(p, today, list);
    }

    /** The check on opening: refresh everything when a day in the window holds a reference record. */
    method StartupCheck(p: Provider, today: int)
      modifies this
      ensures itinerary == if NeedsRefresh(old(itinerary), today) then RefreshedList(p, today, old(itinerary)) else old(itinerary)
      ensures selectedDayId == old(selectedDayId) && dayToDelete == old(dayToDelete) && isDeleteModalOpen == old(isDeleteModalOpen)
    {
      if NeedsRefresh(itinerary, today) {
        UpdateWeatherForList(itinerary, p, today);
      }
    }

    /** The refresh button. */
    method RefreshWeather(p: Provider, today: int)
      modifies this
      ensures itinerary == RefreshedList(p, today, old(itinerary))
      ensures selectedDayId == old(selectedDayId) && dayToDelete == old(dayToDelete) && isDeleteModalOpen == old(isDeleteModalOpen)
    {
      UpdateWeatherForList(itinerary, p, today);
    }

    /**
     * `handleUpdateDay`: the saved day replaces the day with its id at once;
     * the version with merged weather replaces it again when the merge changed anything.
     */
    method UpdateDay(u: Day, p: Provider, today: int)
      modifies this
      ensures itinerary == UpdateWhere(old(itinerary), DayId, u.id, _ => SavedDay(p, today, Find(old(itinerary), DayId, u.id), u))
      ensures selectedDayId == old(selectedDayId) && dayToDelete == old(dayToDelete) && isDeleteModalOpen == old(isDeleteModalOpen)
    {
      var previous := itinerary;
      var put: Day -> Day := _ => u;
      itinerary := UpdateWhere(itinerary, DayId, u.id, put);
      var hasChanges := false;
      var newWeather := u.weatherInfo;
      var oldDay := Find(previous, DayId, u.id);
      if DayLookedUp(oldDay, u) {
        var info := FetchWeatherForDay(p, today, u.location, u.date);
        if info.Some? {
          newWeather := info;
          hasChanges := true;
        }
      }
      if newWeather.None? {
        var first := FirstWeather(u.activities);
        if first.Some? {
          newWeather := first;
          hasChanges := true;
        }
      }
      assert (newWeather, hasChanges) == SavedDayWeather(p, today, oldDay, u);
      var processed := ProcessedActivities(p, today, u.date, oldDay, u.activities);
      var saved: Day -> Day := _ => SavedDay(p, today, oldDay, u);
      if hasChanges || processed != u.activities {
        var merged := u.(weatherInfo := newWeather, activities := processed);
        assert merged == SavedDay(p, today, oldDay, u);
        var putMerged: Day -> Day := _ => merged;
        UpdateWhereTwice(previous, DayId, u.id, put, putMerged, saved);
        itinerary := UpdateWhere(itinerary, DayId, u.id, putMerged);
      } else {
        assert u == SavedDay(p, today, oldDay, u);
        UpdateWhereSame(previous, DayId, u.id, put, saved);
      }
    }

    /** `handleUpdateStartDate`: re-date from the new start, drop all records, and refresh. */
    method UpdateStartDate(newStart: string, p: Provider, today: int)
      modifies this
      ensures itinerary == if newStart == "" then old(itinerary)
        else RefreshedList(p, today, Restarted(old(itinerary), DayNumberOf(newStart)))
      ensures selectedDayId == old(selectedDayId) && dayToDelete == old(dayToDelete) && isDeleteModalOpen == old(isDeleteModalOpen)
    {
      if newStart == "" {
        return;
      }
      var restarted := Restarted(itinerary, DayNumberOf(newStart));
      itinerary := restarted;
      UpdateWeatherForList(restarted, p, today);
    }

    /** `handleAddDay`: append a placeholder day after the last one and select it. */
    method AddDay(newId: string, todayIso: string)
      modifies this
      ensures itinerary == old(itinerary) + [AddedDay(old(itinerary), newId, todayIso)]
      ensures selectedDayId == newId
      ensures dayToDelete == old(dayToDelete) && isDeleteModalOpen == old(isDeleteModalOpen)
    {
      var newDay := AddedDay(itinerary, newId, todayIso);
      itinerary := itinerary + [newDay];
      selectedDayId := newDay.id;
    }

    /** `handleDeleteDayRequest`: the last remaining day cannot be deleted; otherwise ask for confirmation. */
    method DeleteDayRequest(id: string)
      modifies this
      ensures |old(itinerary)| <= 1 ==> dayToDelete == old(dayToDelete) && isDeleteModalOpen == old(isDeleteModalOpen)
      ensures |old(itinerary)| > 1 ==> dayToDelete == Some(id) && isDeleteModalOpen
      ensures itinerary == old(itinerary) && selectedDayId == old(selectedDayId)
    {
      if |itinerary| <= 1 {
        return;
      }
      dayToDelete := Some(id);
      isDeleteModalOpen := true;
    }

    /**
     * `executeDeleteDay`: remove the pending day, re-date the survivors from
     * the first of them, and move the selection to the day before the deleted
     * one (the new first day when the first was deleted). Reading the first
     * survivor of an empty list, or a selection at index -2, is a `TypeError`:
     * the updates made before it stand and the rest are skipped.
     */
    method ExecuteDeleteDay()
      modifies this
      ensures var id := old(dayToDelete);
        var remaining := Without(old(itinerary), DayId, if id.Some? then id.value else "");
        var index := IndexOf(old(itinerary), DayId, if id.Some? then id.value else "");
        if id.None? || id.value == "" || |remaining| == 0 then
          itinerary == old(itinerary) && selectedDayId == old(selectedDayId) && dayToDelete == old(dayToDelete)
        else
          && itinerary == AfterDeletion(remaining)
          && (old(selectedDayId) != id.value ==> selectedDayId == old(selectedDayId) && dayToDelete.None?)
          && (old(selectedDayId) == id.value && index == 0 ==> selectedDayId == itinerary[0].id && dayToDelete.None?)
          && (old(selectedDayId) == id.value && index > 0 ==> selectedDayId == old(itinerary)[index - 1].id && dayToDelete.None?)
          && (old(selectedDayId) == id.value && index == -1 ==> selectedDayId == old(selectedDayId) && dayToDelete == old(dayToDelete))
      ensures isDeleteModalOpen == old(isDeleteModalOpen)
      ensures |old(itinerary)| > 0 ==> |itinerary| > 0
    {
      if dayToDelete.None? || dayToDelete.value == "" {
        return;
      }
      var id := dayToDelete.value;
      var index := IndexOf(itinerary, DayId, id);
      var remaining := Without(itinerary, DayId, id);
      if |remaining| == 0 {
        return;
      }
      var updated := AfterDeletion(remaining);
      var previous := itinerary;
      itinerary := updated;
      if selectedDayId == id {
        if index == 0 {
          selectedDayId := updated[0].id;
        } else if index > 0 {
          WithoutKeepsPrefix(previous, DayId, id, index);
          assert remaining[index - 1] == previous[index - 1];
          selectedDayId := updated[index - 1].id;
        } else {
          return;
        }
      }
      dayToDelete := None;
    }

    /** The dialog's cancel button: close it, leaving the pending day as it was. */
    method CancelDelete()
      modifies this
      ensures !isDeleteModalOpen
      ensures itinerary == old(itinerary) && selectedDayId == old(selectedDayId) && dayToDelete == old(dayToDelete)
    {
      isDeleteModalOpen := false;
    }

    /**
     * The dialog's confirm button: `executeDeleteDay`, then close the dialog.
     * When the deletion stops on a `TypeError` the close is never reached and
     * the dialog stays as it was.
     */
    method ConfirmDelete()
      modifies this
      ensures var id := old(dayToDelete);
        var remaining := Without(old(itinerary), DayId, if id.Some? then id.value else "");
        var index := IndexOf(old(itinerary), DayId, if id.Some? then id.value else "");
        var thrown := id.Some? && id.value != "" &&
          (|remaining| == 0 || (old(selectedDayId) == id.value && index == -1));
        && isDeleteModalOpen == (thrown && old(isDeleteModalOpen))
        && (id.None? || id.value == "" || |remaining| == 0 ==> itinerary == old(itinerary))
        && (id.Some? && id.value != "" && |remaining| > 0 ==> itinerary == AfterDeletion(remaining))
        && (thrown || id.None? || id.value == "" ==> dayToDelete == old(dayToDelete))
        && (!thrown && id.Some? && id.value != "" ==> dayToDelete.None?)
        && (id.None? || old(selectedDayId) != id.value || thrown ==> selectedDayId == old(selectedDayId))
        && (!thrown && id.Some? && id.value != "" && old(selectedDayId) == id.value ==>
              0 <= index < |old(itinerary)| && |itinerary| > 0 &&
              selectedDayId == if index == 0 then itinerary[0].id else old(itinerary)[index - 1].id)
      ensures |old(itinerary)| > 0 ==> |itinerary| > 0
    {
      var id := if dayToDelete.Some? then dayToDelete.value else "";
      var thrown := dayToDelete.Some? && id != "" &&
        (|Without(itinerary, DayId, id)| == 0 || (selectedDayId == id && IndexOf(itinerary, DayId, id) == -1));
      ExecuteDeleteDay();
      if !thrown {
        isDeleteModalOpen := false;
      }
    }

    /** `handleReorderDays`: move a day within a copy of the list, then re-date the list from the old first day. */
    method ReorderDays(from: nat, to: nat)
      requires from < |itinerary| && to < |itinerary|
      modifies this
      ensures itinerary == if from == to then old(itinerary) else AfterMove(old(itinerary), from, to)
      ensures selectedDayId == old(selectedDayId) && dayToDelete == old(dayToDelete) && isDeleteModalOpen == old(isDeleteModalOpen)
    {
      if from == to {
        return;
      }
      var days := itinerary;
      var copy := new Day[|days|](i requires 0 <= i < |days| => days[i]);
      assert copy[..] == days;
      MoveWithin(copy, from, to);
      itinerary := Redate(copy[..], DayNumberOf(days[0].date));
    }
  }
}
