/**
 * The weather decision helpers of services/weather.ts and the two fetch
 * functions, with the network replaced by a `Provider` (geocoding, daily and
 * hourly series) and the wall clock by `today`, the local day number of now.
 * Every failure the source catches (no city, no geocoding hit, no or empty
 * series, index out of range) is `None`.
 */
module Weather {

  import opened Wrappers
  import opened Text
  import opened Calendar
  import opened TripTypes

  // ---------------------------------------------------------------- WMO codes

  /** WMO weather interpretation code (WMO Code Table 4677) to the four conditions shown. */
  function MapWmoCode(code: int): (c: Condition)
    ensures c == Cloudy <==> (code == 2 || code == 3 || code == 45 || code == 48)
    ensures c == Rain <==> (51 <= code <= 67 || 80 <= code <= 82 || 95 <= code <= 99)
    ensures c == Snow <==> (71 <= code <= 77 || code == 85 || code == 86)
  {
    if code == 0 || code == 1 then Sunny
    else if code == 2 || code == 3 then Cloudy
    else if code == 45 || code == 48 then Cloudy
    else if 51 <= code <= 67 then Rain
    else if 71 <= code <= 77 then Snow
    else if 80 <= code <= 82 then Rain
    else if code == 85 || code == 86 then Snow
    else if 95 <= code <= 99 then Rain
    else Sunny
  }

  /** Clear and mostly clear are Sunny, and so is every code outside the fog, drizzle, rain, snow and thunderstorm groups. */
  lemma SunnyIsTheDefault(code: int)
    ensures MapWmoCode(code) == Sunny <==>
      !(code == 2 || code == 3 || code == 45 || code == 48
        || 51 <= code <= 67 || 80 <= code <= 82 || 95 <= code <= 99
        || 71 <= code <= 77 || code == 85 || code == 86)
  {
  }

  // ---------------------------------------------------------------- city names

  const Arrow: string := "➔"
  const AsciiArrow: string := "->"

  /** `tail` is what follows the last occurrence of `sep` in `s`. */
  ghost predicate IsAfterLast(s: string, sep: string, tail: string) {
    |tail| + |sep| <= |s|
    && s[|s| - |tail|..] == tail
    && s[|s| - |tail| - |sep|..|s| - |tail|] == sep
    && !Contains(tail, sep)
  }

  /** The searchable city of a location, possibly a route such as `台北 ➔ 東京`: the destination after the last arrow, trimmed. */
  function ExtractCityName(location: string): (city: string)
    ensures IsTrimmed(city)
    ensures Contains(location, Arrow) ==> !Contains(city, Arrow)
  {
    var raw :=
      if location == "" then ""
      else if Contains(location, Arrow) then Last(SplitOn(location, Arrow))
      else if Contains(location, AsciiArrow) then Last(SplitOn(location, AsciiArrow))
      else location;
    TrimSpec(raw);
    if Contains(location, Arrow) then
      SplitPiecesFree(location, Arrow);
      TrimKeepsAbsent(raw, Arrow);
      Trim(raw)
    else Trim(raw)
  }

  /** The last piece of a split with at least two pieces follows the last separator. */
  lemma LastPieceIsAfterLast(s: string, sep: string)
    requires |sep| > 0 && Contains(s, sep)
    ensures IsAfterLast(s, sep, Last(SplitOn(s, sep)))
  {
    var pieces := SplitOn(s, sep);
    SplitJoin(s, sep);
    SplitPiecesFree(s, sep);
    JoinLast(pieces, sep);
  }

  lemma {:induction false} JoinLast(pieces: seq<string>, sep: string)
    requires |pieces| >= 2
    ensures Join(pieces, sep) == Join(pieces[..|pieces| - 1], sep) + sep + Last(pieces)
    decreases |pieces|
  {
    if |pieces| > 2 {
      JoinLast(pieces[1..], sep);
      assert pieces[1..][..|pieces| - 2] == pieces[..|pieces| - 1][1..];
    }
  }

  /**
   * The empty location has no city; with a `➔` the city is the trimmed text
   * after the last `➔` (tested before `->`); with only `->` the text after the
   * last `->`; otherwise the whole location trimmed.
   */
  lemma ExtractCityNameSpec(location: string)
    ensures location == "" ==> ExtractCityName(location) == ""
    ensures Contains(location, Arrow) ==>
      exists tail :: IsAfterLast(location, Arrow, tail) && ExtractCityName(location) == Trim(tail)
    ensures !Contains(location, Arrow) && Contains(location, AsciiArrow) ==>
      exists tail :: IsAfterLast(location, AsciiArrow, tail) && ExtractCityName(location) == Trim(tail)
    ensures !Contains(location, Arrow) && !Contains(location, AsciiArrow) ==>
      ExtractCityName(location) == Trim(location)
  {
    if location != "" && Contains(location, Arrow) {
      LastPieceIsAfterLast(location, Arrow);
    } else if location != "" && Contains(location, AsciiArrow) {
      LastPieceIsAfterLast(location, AsciiArrow);
    }
  }

  // ---------------------------------------------------------------- time labels

  predicate IsColon(c: char) {
    c == ':' || c == '：'
  }

  /** The hour group of `(\d{1,2})[:：](\d{2})` matched at position `i`: two digits tried before one. */
  function ClockAt(s: string, i: nat): (r: Option<nat>)
    ensures r.Some? ==> r.value <= 99
  {
    if i + 5 <= |s| && IsDigit(s[i]) && IsDigit(s[i + 1]) && IsColon(s[i + 2])
       && IsDigit(s[i + 3]) && IsDigit(s[i + 4])
    then Some(10 * DigitValue(s[i]) + DigitValue(s[i + 1]))
    else if i + 4 <= |s| && IsDigit(s[i]) && IsColon(s[i + 1]) && IsDigit(s[i + 2]) && IsDigit(s[i + 3])
    then Some(DigitValue(s[i]))
    else None
  }

  /** The hour group of the leftmost match of the clock pattern at or after `i`. */
  function FirstClock(s: string, i: nat): (r: Option<nat>)
    ensures r.Some? ==> r.value <= 99
    ensures r.Some? ==> exists j :: i <= j < |s| && ClockAt(s, j) == r && forall k :: i <= k < j ==> ClockAt(s, k).None?
    ensures r.None? ==> forall k :: i <= k < |s| ==> ClockAt(s, k).None?
    decreases |s| - i
  {
    if i >= |s| then None
    else if ClockAt(s, i).Some? then ClockAt(s, i)
    else FirstClock(s, i + 1)
  }

  predicate MorningWord(lower: string) {
    Contains(lower, "morning") || Contains(lower, "早上") || Contains(lower, "上午")
  }

  predicate NoonWord(lower: string) {
    Contains(lower, "noon") || Contains(lower, "中午")
  }

  /**
   * The keyword buckets in the order they are tested; the first hit wins.
   * `afternoon` contains `noon`, so an English afternoon label lands in the
   * noon bucket.
   */
  function KeywordHour(lower: string): (r: Option<int>)
    ensures r.Some? ==> r.value in {9, 12, 14, 18, 21}
  {
    if MorningWord(lower) then Some(9)
    else if NoonWord(lower) then Some(12)
    else if Contains(lower, "afternoon") || Contains(lower, "下午") then Some(14)
    else if Contains(lower, "evening") || Contains(lower, "傍晚") then Some(18)
    else if Contains(lower, "night") || Contains(lower, "晚上") then Some(21)
    else None
  }

  lemma AfternoonContainsNoon(s: string)
    requires Contains(s, "afternoon")
    ensures Contains(s, "noon")
  {
    var i := ContainsWitness(s, "afternoon");
    assert s[i + 5..i + 9] == "afternoon"[5..9] == "noon";
    ContainsAt(s, "noon", i + 5);
  }

  /**
   * Morning words win, noon words come next, and a label with `afternoon` is
   * never put in the 14:00 bucket; a label with none of the words has no hour.
   */
  lemma KeywordHourBuckets(lower: string)
    ensures MorningWord(lower) ==> KeywordHour(lower) == Some(9)
    ensures !MorningWord(lower) && NoonWord(lower) ==> KeywordHour(lower) == Some(12)
    ensures Contains(lower, "afternoon") ==> KeywordHour(lower) == Some(9) || KeywordHour(lower) == Some(12)
    ensures KeywordHour(lower) == Some(14) ==> Contains(lower, "下午")
    ensures KeywordHour(lower).None? <==>
      !MorningWord(lower) && !NoonWord(lower) && !Contains(lower, "下午")
      && !Contains(lower, "evening") && !Contains(lower, "傍晚") && !Contains(lower, "night") && !Contains(lower, "晚上")
  {
    if Contains(lower, "afternoon") {
      AfternoonContainsNoon(lower);
    }
  }

  predicate HasPmMarker(lower: string) {
    Contains(lower, "pm") || Contains(lower, "下午") || Contains(lower, "晚上")
  }

  predicate HasAmMarker(lower: string) {
    Contains(lower, "am") || Contains(lower, "上午")
  }

  /** The 12-hour adjustment of a clock hour: +12 under a PM marker below 12, then 12 becomes 0 under an AM marker. */
  function AdjustHour(h: nat, lower: string): (r: nat)
    ensures h <= 99 ==> r <= 99
    ensures HasPmMarker(lower) && h < 12 ==> r == (if HasAmMarker(lower) && h == 0 then 0 else h + 12)
    ensures !(HasPmMarker(lower) && h < 12) ==> r == (if HasAmMarker(lower) && h == 12 then 0 else h)
    ensures r != h ==> (HasPmMarker(lower) && h < 12 && r == h + 12) || (HasAmMarker(lower) && r == 0)
  {
    var pm := if HasPmMarker(lower) && h < 12 then h + 12 else h;
    if HasAmMarker(lower) && pm == 12 then 0 else pm
  }

  /** The hour a free-text time label names, or `None` when it names none. */
  function ParseHourFromTime(time: string): (r: Option<int>)
    ensures time == "" ==> r.None?
    ensures r.Some? ==> 0 <= r.value <= 99
    ensures FirstClock(ToLowerAscii(time), 0).Some? && time != "" ==>
      r == Some(AdjustHour(FirstClock(ToLowerAscii(time), 0).value, ToLowerAscii(time)))
    ensures FirstClock(ToLowerAscii(time), 0).None? ==> r.None? || r.value in {9, 12, 14, 18, 21}
  {
    if time == "" then None
    else
      var lower := ToLowerAscii(time);
      match FirstClock(lower, 0)
      case Some(h) => Some(AdjustHour(h, lower))
      case None => KeywordHour(lower)
  }

  lemma {:induction false} NoDigitNoClock(s: string, i: nat)
    requires forall k :: i <= k < |s| ==> !IsDigit(s[k])
    ensures FirstClock(s, i).None?
    decreases |s| - i
  {
    if i < |s| {
      NoDigitNoClock(s, i + 1);
    }
  }

  /** How a label that lower-cases to `lower` is read, through its first clock or its keywords. */
  lemma ReadLabel(time: string, lower: string)
    requires time != "" && ToLowerAscii(time) == lower
    ensures FirstClock(lower, 0).Some? ==> ParseHourFromTime(time) == Some(AdjustHour(FirstClock(lower, 0).value, lower))
    ensures FirstClock(lower, 0).None? ==> ParseHourFromTime(time) == KeywordHour(lower)
  {
  }

  /** Neither marker is in a label made of digits, colons, spaces and dashes. */
  lemma NoMarkers(lower: string)
    requires forall k :: 0 <= k < |lower| ==> IsDigit(lower[k]) || lower[k] in ":- "
    ensures !HasPmMarker(lower) && !HasAmMarker(lower)
  {
    MissingCharAbsent(lower, "pm", 'p');
    MissingCharAbsent(lower, "下午", '下');
    MissingCharAbsent(lower, "晚上", '晚');
    MissingCharAbsent(lower, "am", 'a');
    MissingCharAbsent(lower, "上午", '上');
  }

  /** A 24-hour clock label is read as written. */
  lemma ClockLabelExample()
    ensures ParseHourFromTime("14:30") == Some(14)
  {
    assert ToLowerAscii("14:30") == "14:30";
    assert ClockAt("14:30", 0) == Some(14);
    NoMarkers("14:30");
    ReadLabel("14:30", "14:30");
  }

  /** The clock hour is not checked against 23: `25:00` is hour 25. */
  lemma UncappedHourExample()
    ensures ParseHourFromTime("25:00") == Some(25)
  {
    assert ToLowerAscii("25:00") == "25:00";
    assert ClockAt("25:00", 0) == Some(25);
    NoMarkers("25:00");
    ReadLabel("25:00", "25:00");
  }

  /** A one-digit hour with a PM marker moves to the afternoon. */
  lemma PmLabelExample()
    ensures ParseHourFromTime("2:30pm") == Some(14)
  {
    PmClock();
    PmMarkers();
    ReadLabel("2:30pm", "2:30pm");
  }

  lemma PmClock()
    ensures ToLowerAscii("2:30pm") == "2:30pm" && ClockAt("2:30pm", 0) == Some(2)
  {
  }

  lemma PmMarkers()
    ensures HasPmMarker("2:30pm") && !HasAmMarker("2:30pm")
  {
    ContainsAt("2:30pm", "pm", 4);
    MissingCharAbsent("2:30pm", "上午", '上');
    MissingCharAbsent("2:30pm", "am", 'a');
  }

  lemma NoPmMarker(lower: string)
    requires 'p' !in lower && '下' !in lower && '晚' !in lower
    ensures !HasPmMarker(lower)
  {
    MissingCharAbsent(lower, "pm", 'p');
    MissingCharAbsent(lower, "下午", '下');
    MissingCharAbsent(lower, "晚上", '晚');
  }

  lemma MidnightNotPm()
    ensures !HasPmMarker("12:00am")
  {
    NoPmMarker("12:00am");
  }

  lemma MidnightAm()
    ensures HasAmMarker("12:00am")
  {
    ContainsAt("12:00am", "am", 5);
  }

  lemma MidnightLowerCase()
    ensures ToLowerAscii("12:00am") == "12:00am" && FirstClock("12:00am", 0) == Some(12)
  {
  }

  /** Midnight written with an AM marker is hour 0. */
  lemma MidnightLabelExample()
    ensures ParseHourFromTime("12:00am") == Some(0)
  {
    MidnightLowerCase();
    MidnightNotPm();
    MidnightAm();
    ReadLabel("12:00am", "12:00am");
  }

  /** A range label takes its start. */
  lemma RangeLabelExample()
    ensures ParseHourFromTime("10:20 - 15:20") == Some(10)
  {
    var s := "10:20 - 15:20";
    assert ToLowerAscii(s) == s;
    assert ClockAt(s, 0) == Some(10);
    NoMarkers(s);
    ReadLabel(s, s);
  }

  lemma AfternoonLowerCase()
    ensures ToLowerAscii("Afternoon") == "afternoon" && FirstClock("afternoon", 0).None?
  {
    NoDigitNoClock("afternoon", 0);
  }

  lemma NoMorningWord(lower: string)
    requires 'm' !in lower && '早' !in lower && '上' !in lower
    ensures !MorningWord(lower)
  {
    MissingCharAbsent(lower, "morning", 'm');
    MissingCharAbsent(lower, "早上", '早');
    MissingCharAbsent(lower, "上午", '上');
  }

  lemma AfternoonNotMorning()
    ensures !MorningWord("afternoon")
  {
    NoMorningWord("afternoon");
  }

  lemma AfternoonNoon()
    ensures NoonWord("afternoon")
  {
    ContainsAt("afternoon", "noon", 5);
  }

  /** An English afternoon label is read as noon. */
  lemma AfternoonLabelExample()
    ensures ParseHourFromTime("Afternoon") == Some(12)
  {
    AfternoonLowerCase();
    AfternoonNotMorning();
    AfternoonNoon();
    ReadLabel("Afternoon", "afternoon");
  }

  lemma MorningLabelExample()
    ensures ParseHourFromTime("Morning") == Some(9)
  {
    assert ToLowerAscii("Morning") == "morning";
    NoDigitNoClock("morning", 0);
    ContainsAt("morning", "morning", 0);
    ReadLabel("Morning", "morning");
  }

  lemma ChineseAfternoonLabelExample()
    ensures ParseHourFromTime("下午") == Some(14)
  {
    assert ToLowerAscii("下午") == "下午";
    NoDigitNoClock("下午", 0);
    NoMorningWord("下午");
    MissingCharAbsent("下午", "noon", 'n');
    MissingCharAbsent("下午", "中午", '中');
    ContainsAt("下午", "下午", 0);
    ReadLabel("下午", "下午");
  }

  /** An ASCII label without the letter `n` holds none of the bucket words. */
  lemma NoBucketWord(lower: string)
    requires forall k :: 0 <= k < |lower| ==> lower[k] < '\U{0080}'
    requires 'n' !in lower
    ensures KeywordHour(lower).None?
  {
    MissingCharAbsent(lower, "morning", 'n');
    MissingCharAbsent(lower, "早上", '早');
    MissingCharAbsent(lower, "上午", '上');
    MissingCharAbsent(lower, "noon", 'n');
    MissingCharAbsent(lower, "中午", '中');
    MissingCharAbsent(lower, "afternoon", 'n');
    MissingCharAbsent(lower, "下午", '下');
    MissingCharAbsent(lower, "evening", 'n');
    MissingCharAbsent(lower, "傍晚", '傍');
    MissingCharAbsent(lower, "night", 'n');
    MissingCharAbsent(lower, "晚上", '晚');
  }

  /** How an ASCII label without digits and without the letter `n` is read: as no hour. */
  lemma NoHourLabel(time: string, lower: string)
    requires time != "" && ToLowerAscii(time) == lower
    requires forall k :: 0 <= k < |lower| ==> lower[k] < '\U{0080}' && !IsDigit(lower[k])
    requires 'n' !in lower
    ensures ParseHourFromTime(time).None?
  {
    NoDigitNoClock(lower, 0);
    NoBucketWord(lower);
    ReadLabel(time, lower);
  }

  /** Labels with neither a clock nor a bucket word name no hour. */
  lemma TbaLabelExample()
    ensures ParseHourFromTime("TBA").None?
  {
    assert ToLowerAscii("TBA") == "tba";
    NoHourLabel("TBA", "tba");
  }

  lemma AllDayLabelExample()
    ensures ParseHourFromTime("All Day").None?
  {
    assert ToLowerAscii("All Day") == "all day";
    NoHourLabel("All Day", "all day");
  }

  // ---------------------------------------------------------------- horizon

  /** `getDaysDiff`: whole local days from today to the date; `None` where the source computes `NaN`. */
  function DaysDiff(date: string, today: int): (r: Option<int>)
    ensures r.Some? <==> ParseIso(date).Some?
    ensures r.Some? ==> r.value == DayNumber(ParseIso(date).value) - today
  {
    match DayNumberOf(date)
    case Some(n) => Some(n - today)
    case None => None
  }

  /** The offset of a written date is its day number less today's: 0 for today, one more for each day later. */
  lemma DaysDiffOfFormatted(d: Ymd, today: int)
    requires d.year >= 0 && d.month >= 0 && d.day >= 0
    ensures DaysDiff(FormatYmd(d), today) == Some(DayNumber(d) - today)
  {
    var s := FormatYmd(d);
    assert ParseIso(s) == Some(d) by {
      ParseFormatYmd(d);
    }
    DaysDiffByParse(s, today, d);
  }

  lemma DaysDiffByParse(date: string, today: int, d: Ymd)
    requires ParseIso(date) == Some(d)
    ensures DaysDiff(date, today) == Some(DayNumber(d) - today)
  {
  }

  /** The forecast endpoint covers yesterday through fourteen days ahead, both ends included. */
  predicate InForecastWindow(diff: Option<int>) {
    diff.Some? && -1 <= diff.value <= 14
  }

  /** The archive date: same month and day one year back, the year clamped to last year when that would be in the future. */
  function ReferenceDate(target: Ymd, currentYear: int): (r: Ymd)
    ensures r.month == target.month && r.day == target.day
    ensures r.year <= currentYear
    ensures target.year - 1 <= currentYear ==> r.year == target.year - 1
    ensures target.year - 1 > currentYear ==> r.year == currentYear - 1
  {
    var refYear := target.year - 1;
    Ymd(if refYear > currentYear then currentYear - 1 else refYear, target.month, target.day)
  }

  datatype Endpoint = Forecast | Archive

  /** Which endpoint a fetch asks and for which date string. */
  datatype Query = Query(endpoint: Endpoint, date: string)

  /** The text `new Date(date)` gives back as Y-M-D in the archive branch; `NaN` parts for a date it cannot read. */
  function ArchiveDate(date: string, today: int): string {
    match DayNumberOf(date)
    case Some(n) => FormatYmd(ReferenceDate(FromDayNumber(n), FromDayNumber(today).year))
    case None => "NaN-NaN-NaN"
  }

  /** The classification both fetches share: the forecast for the date itself inside the window, else the archive one year back. */
  function PlanQuery(date: string, today: int): (q: Query)
    ensures q.endpoint == Forecast <==> InForecastWindow(DaysDiff(date, today))
    ensures q.endpoint == Forecast ==> q.date == date
    ensures q.endpoint == Archive ==> q.date == ArchiveDate(date, today)
  {
    if InForecastWindow(DaysDiff(date, today)) then Query(Forecast, date)
    else Query(Archive, ArchiveDate(date, today))
  }

  /** Outside the window the archive is asked for the same month and day a year earlier (unless clamped). */
  lemma ArchiveIsOneYearBack(date: string, today: int)
    requires ParseIso(date).Some? && !InForecastWindow(DaysDiff(date, today))
    requires ValidYmd(ParseIso(date).value) && ParseIso(date).value.year >= 1
    requires ParseIso(date).value.year - 1 <= FromDayNumber(today).year
    ensures var t := ParseIso(date).value;
      PlanQuery(date, today) == Query(Archive, FormatYmd(Ymd(t.year - 1, t.month, t.day)))
      && ParseIso(PlanQuery(date, today).date) == Some(Ymd(t.year - 1, t.month, t.day))
  {
    var t := ParseIso(date).value;
    var back := Ymd(t.year - 1, t.month, t.day);
    ArchiveQueryOf(date, today, t);
    ParseFormatYmd(back);
  }

  lemma ArchiveQueryOf(date: string, today: int, t: Ymd)
    requires ParseIso(date) == Some(t) && ValidYmd(t) && !InForecastWindow(DaysDiff(date, today))
    requires t.year - 1 <= FromDayNumber(today).year
    ensures PlanQuery(date, today) == Query(Archive, FormatYmd(Ymd(t.year - 1, t.month, t.day)))
  {
    ArchiveDateOf(date, today, t);
    assert ReferenceDate(t, FromDayNumber(today).year) == Ymd(t.year - 1, t.month, t.day);
  }

  /** The archive date of a readable date, by its fields. */
  lemma ArchiveDateOf(date: string, today: int, t: Ymd)
    requires ParseIso(date) == Some(t) && ValidYmd(t)
    ensures ArchiveDate(date, today) == FormatYmd(ReferenceDate(t, FromDayNumber(today).year))
  {
    FromDayNumberOf(t);
  }

  lemma FormatFeb3()
    ensures FormatYmd(Ymd(2026, 2, 3)) == "2026-02-03"
  {
    assert NatToString(2026) == "2026";
    assert Pad2(2) == "02" && Pad2(3) == "03";
  }

  lemma FormatFeb4()
    ensures FormatYmd(Ymd(2026, 2, 4)) == "2026-02-04"
  {
    assert NatToString(2026) == "2026";
    assert Pad2(2) == "02" && Pad2(4) == "04";
  }

  lemma FormatFeb4LastYear()
    ensures FormatYmd(Ymd(2025, 2, 4)) == "2025-02-04"
  {
    assert NatToString(2025) == "2025";
    assert Pad2(2) == "02" && Pad2(4) == "04";
  }

  lemma OffsetFeb3(y: int)
    ensures DayNumber(Ymd(y, 2, 3)) - DayNumber(Ymd(y, 1, 20)) == 14
  {
    InMonthDayNumber(y, 2, 3);
    InMonthDayNumber(y, 1, 20);
  }

  lemma OffsetFeb4(y: int)
    ensures DayNumber(Ymd(y, 2, 4)) - DayNumber(Ymd(y, 1, 20)) == 15
  {
    InMonthDayNumber(y, 2, 4);
    InMonthDayNumber(y, 1, 20);
  }

  lemma ExampleDiffs(today: int)
    requires today == DayNumber(Ymd(2026, 1, 20))
    ensures DaysDiff("2026-02-03", today) == Some(14)
    ensures DaysDiff("2026-02-04", today) == Some(15)
  {
    FormatFeb3();
    FormatFeb4();
    ParseFormatYmd(Ymd(2026, 2, 3));
    ParseFormatYmd(Ymd(2026, 2, 4));
    OffsetFeb3(2026);
    OffsetFeb4(2026);
  }

  lemma ExampleArchiveDate(today: int)
    requires today == DayNumber(Ymd(2026, 1, 20))
    ensures ArchiveDate("2026-02-04", today) == "2025-02-04"
  {
    FormatFeb4();
    FormatFeb4LastYear();
    ParseFormatYmd(Ymd(2026, 2, 4));
    assert ValidYmd(Ymd(2026, 1, 20)) && ValidYmd(Ymd(2026, 2, 4));
    FromDayNumberOf(Ymd(2026, 1, 20));
    FromDayNumberOf(Ymd(2026, 2, 4));
  }

  lemma QueryByOffset(date: string, today: int, offset: int)
    requires DaysDiff(date, today) == Some(offset)
    ensures -1 <= offset <= 14 ==> PlanQuery(date, today) == Query(Forecast, date)
    ensures !(-1 <= offset <= 14) ==> PlanQuery(date, today) == Query(Archive, ArchiveDate(date, today))
  {
    var q := PlanQuery(date, today);
    assert q.endpoint == Forecast <==> -1 <= offset <= 14;
  }

  /**
   * With today 2026-01-20, 2026-02-03 is fourteen days ahead and still asks
   * the forecast; 2026-02-04 is fifteen days ahead and asks the archive for
   * 2025-02-04.
   */
  lemma HorizonExample(today: int)
    requires today == DayNumber(Ymd(2026, 1, 20))
    ensures DaysDiff("2026-02-03", today) == Some(14)
    ensures PlanQuery("2026-02-03", today) == Query(Forecast, "2026-02-03")
    ensures DaysDiff("2026-02-04", today) == Some(15)
    ensures PlanQuery("2026-02-04", today) == Query(Archive, "2025-02-04")
  {
    ExampleDiffs(today);
    ExampleArchiveDate(today);
    QueryByOffset("2026-02-03", today, 14);
    QueryByOffset("2026-02-04", today, 15);
  }

  // ---------------------------------------------------------------- fetches

  datatype Coordinates = Coordinates(latitude: real, longitude: real)

  /** One entry of a daily series (`weather_code`, `temperature_2m_max`, `temperature_2m_min`). */
  datatype DailyEntry = DailyEntry(weatherCode: int, tempMax: int, tempMin: int)

  /** One entry of an hourly series (`temperature_2m`, `weather_code`). */
  datatype HourlyEntry = HourlyEntry(temperature: int, weatherCode: int)

  /**
   * The external services: the first geocoding hit for a name, and the daily
   * or hourly series an endpoint returns for a place and a date. `None` is any
   * failure (network, JSON, missing series).
   */
  datatype Provider = Provider(
    geocode: string -> Option<Coordinates>,
    daily: (Endpoint, Coordinates, string) -> Option<seq<DailyEntry>>,
    hourly: (Endpoint, Coordinates, string) -> Option<seq<HourlyEntry>>)

  /** `fetchWeatherForDay`: the day's range record from the first entry of the daily series. */
  function FetchWeatherForDay(p: Provider, today: int, location: string, date: string): (r: Option<WeatherData>)
    ensures ExtractCityName(location) == "" ==> r.None?
    ensures r.Some? ==>
      && r.value.tempMin.Some? && r.value.tempMax.Some? && r.value.temp.None?
      && r.value.isReference == Some(!InForecastWindow(DaysDiff(date, today)))
    ensures r.Some? ==>
      var place := p.geocode(ExtractCityName(location));
      var q := PlanQuery(date, today);
      place.Some? && p.daily(q.endpoint, place.value, q.date).Some?
      && |p.daily(q.endpoint, place.value, q.date).value| > 0
      && r.value.condition == MapWmoCode(p.daily(q.endpoint, place.value, q.date).value[0].weatherCode)
    ensures
      var city := ExtractCityName(location);
      var q := PlanQuery(date, today);
      r.Some? <==>
        city != "" && p.geocode(city).Some? && p.daily(q.endpoint, p.geocode(city).value, q.date).Some?
        && |p.daily(q.endpoint, p.geocode(city).value, q.date).value| > 0
    ensures r.Some? ==>
      var e := p.daily(PlanQuery(date, today).endpoint, p.geocode(ExtractCityName(location)).value, PlanQuery(date, today).date).value[0];
      r.value.tempMin == Some(e.tempMin) && r.value.tempMax == Some(e.tempMax)
  {
    var city := ExtractCityName(location);
    if city == "" then None
    else
      match p.geocode(city)
      case None => None
      case Some(place) =>
        var q := PlanQuery(date, today);
        match p.daily(q.endpoint, place, q.date)
        case None => None
        case Some(series) =>
          if |series| == 0 then None
          else
            var e := series[0];
            Some(WeatherData(Some(e.tempMin), Some(e.tempMax), None, MapWmoCode(e.weatherCode), Some(q.endpoint == Archive)))
  }

  /** `fetchActivityWeather`: the point record at the label's hour, or the day's record when the label names no hour. */
  function FetchActivityWeather(p: Provider, today: int, location: string, date: string, time: string): (r: Option<WeatherData>)
    ensures ParseHourFromTime(time).None? ==> r == FetchWeatherForDay(p, today, location, date)
    ensures ParseHourFromTime(time).Some? && ExtractCityName(location) == "" ==> r.None?
    ensures ParseHourFromTime(time).Some? && r.Some? ==>
      && r.value.temp.Some? && r.value.tempMin.None? && r.value.tempMax.None?
      && r.value.isReference == Some(!InForecastWindow(DaysDiff(date, today)))
    ensures ParseHourFromTime(time).Some? && r.Some? ==>
      var place := p.geocode(ExtractCityName(location));
      var q := PlanQuery(date, today);
      place.Some? && p.hourly(q.endpoint, place.value, q.date).Some?
      && ParseHourFromTime(time).value < |p.hourly(q.endpoint, place.value, q.date).value|
    ensures ParseHourFromTime(time).Some? ==>
      var city := ExtractCityName(location);
      var q := PlanQuery(date, today);
      r.Some? <==>
        city != "" && p.geocode(city).Some? && p.hourly(q.endpoint, p.geocode(city).value, q.date).Some?
        && ParseHourFromTime(time).value < |p.hourly(q.endpoint, p.geocode(city).value, q.date).value|
    ensures ParseHourFromTime(time).Some? && r.Some? ==>
      var q := PlanQuery(date, today);
      var e := p.hourly(q.endpoint, p.geocode(ExtractCityName(location)).value, q.date).value[ParseHourFromTime(time).value];
      r.value.temp == Some(e.temperature) && r.value.condition == MapWmoCode(e.weatherCode)
  {
    match ParseHourFromTime(time)
    case None => FetchWeatherForDay(p, today, location, date)
    case Some(hour) =>
      var city := ExtractCityName(location);
      if city == "" then None
      else
        match p.geocode(city)
        case None => None
        case Some(place) =>
          var q := PlanQuery(date, today);
          match p.hourly(q.endpoint, place, q.date)
          case None => None
          case Some(series) =>
            if hour >= |series| then None
            else
              var e := series[hour];
              Some(WeatherData(None, None, Some(e.temperature), MapWmoCode(e.weatherCode), Some(q.endpoint == Archive)))
  }
}
