/**
 * The CSV text of utils/exporter.ts: a byte-order mark, the itinerary section
 * (title, 9-column header, one row per activity) and, after a blank line, the
 * expense section (title, 6-column header, one row per expense). Free text is
 * quoted with inner quotes doubled, as in section 2, rule 7 of RFC 4180;
 * rows end in a line feed. The download itself is not modelled.
 */
module Exporter {

  import opened Wrappers
  import opened Text
  import opened Calendar
  import opened TripTypes

  const Bom: string := "﻿"
  const ItineraryTitle: string := "行程規劃 Itinerary\n"
  const ItineraryHeader: string := "日期,星期,地點,時間,活動名稱,類型,詳細說明,備註,預算/花費\n"
  const ExpenseTitle: string := "消費紀錄 Expenses\n"
  const ExpenseHeader: string := "日期,項目,類別,幣別,金額,匯率換算(約)\n"

  // ---------------------------------------------------------------- escaping

  /** `t.replace(/"/g, '""')`. */
  function DoubleQuotes(t: string): string
    decreases |t|
  {
    if |t| == 0 then ""
    else (if t[0] == '"' then "\"\"" else [t[0]]) + DoubleQuotes(t[1..])
  }

  /** `escape`: nothing for a missing or empty text, else the text quoted with its quotes doubled. */
  function Escape(text: Option<string>): (r: string)
    ensures !HasText(text) <==> r == ""
    ensures HasText(text) ==> |r| >= 2 && r[0] == '"' && r[|r| - 1] == '"'
  {
    if !HasText(text) then "" else "\"" + DoubleQuotes(text.value) + "\""
  }

  /** Every quote comes in a doubled pair, so none of them closes a quoted field. */
  predicate QuotesPaired(s: string)
    decreases |s|
  {
    if |s| == 0 then true
    else if s[0] == '"' then |s| >= 2 && s[1] == '"' && QuotesPaired(s[2..])
    else QuotesPaired(s[1..])
  }

  lemma {:induction false} DoubledArePaired(t: string)
    ensures QuotesPaired(DoubleQuotes(t))
    decreases |t|
  {
    if |t| > 0 {
      DoubledArePaired(t[1..]);
      var d := DoubleQuotes(t);
      if t[0] == '"' {
        assert d[2..] == DoubleQuotes(t[1..]);
      } else {
        assert d[1..] == DoubleQuotes(t[1..]);
      }
    }
  }

  // ---------------------------------------------------------------- reading a record back

  /** The rest of a quoted field after its opening quote: a doubled quote is one quote, a single one ends the field. */
  function ReadQuoted(s: string): (r: (string, string))
    ensures |r.1| <= |s|
    decreases |s|
  {
    if |s| == 0 then ("", "")
    else if s[0] == '"' then
      if |s| >= 2 && s[1] == '"' then
        var q := ReadQuoted(s[2..]);
        ("\"" + q.0, q.1)
      else ("", s[1..])
    else
      var q := ReadQuoted(s[1..]);
      ([s[0]] + q.0, q.1)
  }

  /** An unquoted field runs to the next comma. */
  function ReadPlain(s: string): (r: (string, string))
    ensures |r.1| <= |s|
    decreases |s|
  {
    if |s| == 0 || s[0] == ',' then ("", s)
    else
      var q := ReadPlain(s[1..]);
      ([s[0]] + q.0, q.1)
  }

  function ReadField(s: string): (r: (string, string))
    ensures |r.1| <= |s|
  {
    if |s| > 0 && s[0] == '"' then ReadQuoted(s[1..]) else ReadPlain(s)
  }

  /** The fields of one record, as a CSV reader following RFC 4180 splits it. */
  function ReadRecord(s: string): (r: seq<string>)
    ensures |r| >= 1
    decreases |s|
  {
    var f := ReadField(s);
    if |f.1| > 0 && f.1[0] == ',' then [f.0] + ReadRecord(f.1[1..]) else [f.0]
  }

  /** What may follow a field: the end of the record or the next separator. */
  predicate FieldEnd(rest: string) {
    rest == "" || rest[0] == ','
  }

  lemma {:induction false} ReadQuotedDoubled(t: string, rest: string)
    requires FieldEnd(rest)
    ensures ReadQuoted(DoubleQuotes(t) + "\"" + rest) == (t, rest)
    decreases |t|
  {
    var s := DoubleQuotes(t) + "\"" + rest;
    if |t| == 0 {
      assert s == "\"" + rest;
      assert s[1..] == rest;
    } else {
      ReadQuotedDoubled(t[1..], rest);
      if t[0] == '"' {
        assert s[2..] == DoubleQuotes(t[1..]) + "\"" + rest;
        assert "\"" + t[1..] == t;
      } else {
        assert s[1..] == DoubleQuotes(t[1..]) + "\"" + rest;
        assert [t[0]] + t[1..] == t;
      }
    }
  }

  lemma {:induction false} ReadPlainFree(u: string, rest: string)
    requires (forall k :: 0 <= k < |u| ==> u[k] != ',') && FieldEnd(rest)
    ensures ReadPlain(u + rest) == (u, rest)
    decreases |u|
  {
    if |u| == 0 {
      assert u + rest == rest;
    } else {
      ReadPlainFree(u[1..], rest);
      assert (u + rest)[1..] == u[1..] + rest;
      assert [u[0]] + u[1..] == u;
    }
  }

  /** A cell of a row: quoted through `escape`, or written as it is. */
  datatype Cell = Quoted(text: Option<string>) | Plain(plain: string)

  function Encode(c: Cell): string {
    match c
    case Quoted(t) => Escape(t)
    case Plain(t) => t
  }

  /** The text a reader recovers from a cell. */
  function Value(c: Cell): string {
    match c
    case Quoted(t) => if t.Some? then t.value else ""
    case Plain(t) => t
  }

  /** A cell written as it is must hold no comma and not open with a quote. */
  predicate Readable(c: Cell) {
    c.Plain? ==> (forall k :: 0 <= k < |c.plain| ==> c.plain[k] != ',') && (|c.plain| == 0 || c.plain[0] != '"')
  }

  lemma ReadFieldEncoded(c: Cell, rest: string)
    requires Readable(c) && FieldEnd(rest)
    ensures ReadField(Encode(c) + rest) == (Value(c), rest)
  {
    match c
    case Quoted(t) =>
      if HasText(t) {
        var s := Encode(c) + rest;
        assert s[1..] == DoubleQuotes(t.value) + "\"" + rest;
        ReadQuotedDoubled(t.value, rest);
      } else {
        assert Encode(c) + rest == "" + rest;
        ReadPlainFree("", rest);
      }
    case Plain(u) =>
      ReadPlainFree(u, rest);
  }

  function Encodings(cells: seq<Cell>): (r: seq<string>)
    ensures |r| == |cells|
  {
    seq(|cells|, i requires 0 <= i < |cells| => Encode(cells[i]))
  }

  function Values(cells: seq<Cell>): (r: seq<string>)
    ensures |r| == |cells|
  {
    seq(|cells|, i requires 0 <= i < |cells| => Value(cells[i]))
  }

  /** `[...].join(",")` over the encoded cells. */
  function EncodeRow(cells: seq<Cell>): string {
    Join(Encodings(cells), ",")
  }

  /** A row reads back as the values of its cells. */
  lemma {:induction false} ReadRecordRoundTrip(cells: seq<Cell>)
    requires |cells| >= 1 && forall i :: 0 <= i < |cells| ==> Readable(cells[i])
    ensures ReadRecord(EncodeRow(cells)) == Values(cells)
    decreases |cells|
  {
    var e := Encodings(cells);
    if |cells| == 1 {
      assert EncodeRow(cells) == Encode(cells[0]) + "";
      ReadFieldEncoded(cells[0], "");
    } else {
      var tail := EncodeRow(cells[1..]);
      assert e[1..] == Encodings(cells[1..]);
      assert EncodeRow(cells) == Encode(cells[0]) + ("," + tail);
      ReadFieldEncoded(cells[0], "," + tail);
      assert ("," + tail)[1..] == tail;
      ReadRecordRoundTrip(cells[1..]);
      assert Values(cells) == [Value(cells[0])] + Values(cells[1..]);
    }
  }

  /** Stripping the outer quotes of an escaped text and reading its doubled quotes gives the text back. */
  lemma EscapeRoundTrip(t: string)
    requires t != ""
    ensures ReadField(Escape(Some(t))) == (t, "")
  {
    ReadFieldEncoded(Quoted(Some(t)), "");
    assert Escape(Some(t)) + "" == Escape(Some(t));
  }

  // ---------------------------------------------------------------- rows

  /** `string.replace(')', '')`: the first `)` removed. */
  function RemoveFirstClose(s: string): (r: string)
    decreases |s|
  {
    if |s| == 0 then ""
    else if s[0] == ')' then s[1..]
    else [s[0]] + RemoveFirstClose(s[1..])
  }

  /** The weekday cell: the piece after the first `(` with the first `)` removed, or nothing. */
  function WeekdayField(displayDate: string): string {
    var pieces := SplitOn(displayDate, "(");
    if |pieces| < 2 then "" else RemoveFirstClose(pieces[1])
  }

  function TypeName(kind: ActivityType): string {
    match kind
    case FLIGHT => "FLIGHT"
    case HOTEL => "HOTEL"
    case ACTIVITY => "ACTIVITY"
    case TRANSPORT => "TRANSPORT"
    case FOOD => "FOOD"
  }

  function CurrencyName(c: Currency): string {
    match c
    case JPY => "JPY"
    case TWD => "TWD"
  }

  /** The nine cells of an activity's row; the place falls back to the day's. */
  function ActivityCells(day: Day, act: Activity): (r: seq<Cell>)
    ensures |r| == 9
  {
    [ Plain(day.date),
      Plain(WeekdayField(day.displayDate)),
      Quoted(Some(if HasText(act.location) then act.location.value else day.location)),
      Quoted(Some(act.time)),
      Quoted(Some(act.title)),
      Plain(TypeName(act.kind)),
      Quoted(act.description),
      Quoted(act.notes),
      Plain("") ]
  }

  function ActivityRow(day: Day, act: Activity): string {
    EncodeRow(ActivityCells(day, act)) + "\n"
  }

  /** Free of commas and not opening with a quote: safe to write unquoted. */
  predicate PlainText(s: string) {
    Readable(Plain(s))
  }

  /**
   * An activity's row reads back, field by field, as its day's date and
   * weekday, its place (or the day's), time, title and type, its description
   * and notes, and an empty cost.
   */
  lemma ActivityRowReadsBack(day: Day, act: Activity)
    requires PlainText(day.date) && PlainText(WeekdayField(day.displayDate))
    ensures ReadRecord(EncodeRow(ActivityCells(day, act))) ==
      [ day.date, WeekdayField(day.displayDate),
        if HasText(act.location) then act.location.value else day.location,
        act.time, act.title, TypeName(act.kind),
        if act.description.Some? then act.description.value else "",
        if act.notes.Some? then act.notes.value else "",
        "" ]
  {
    var cells := ActivityCells(day, act);
    ReadRecordRoundTrip(cells);
  }

  /** The converted-amount cell: yen shown in NT$, NT$ in yen, the rounded figure given. */
  function ConversionCell(c: Currency, rounded: string): string {
    match c
    case JPY => "NT$ " + rounded
    case TWD => "¥ " + rounded
  }

  /**
   * The six cells of an expense's row. `amountText` stands for the number's
   * decimal text and `rounded` for the `toFixed(0)` text of the converted amount.
   */
  function ExpenseCells(e: Expense, amountText: Amount -> string, rounded: Expense -> string): (r: seq<Cell>)
    ensures |r| == 6
  {
    [ Plain(e.date),
      Quoted(Some(e.description)),
      Plain(e.category),
      Plain(CurrencyName(e.currency)),
      Plain(amountText(e.amount)),
      Plain(ConversionCell(e.currency, rounded(e))) ]
  }

  function ExpenseRow(e: Expense, amountText: Amount -> string, rounded: Expense -> string): string {
    EncodeRow(ExpenseCells(e, amountText, rounded)) + "\n"
  }

  // ---------------------------------------------------------------- the whole text

  /** The rows of a day's first activities, in order. */
  function DayRows(day: Day, acts: seq<Activity>): string
    decreases |acts|
  {
    if |acts| == 0 then "" else DayRows(day, acts[..|acts| - 1]) + ActivityRow(day, acts[|acts| - 1])
  }

  /** The itinerary rows: every day's activity rows, days in order. */
  function ItineraryRows(days: seq<Day>): string
    decreases |days|
  {
    if |days| == 0 then ""
    else ItineraryRows(days[..|days| - 1]) + DayRows(days[|days| - 1], days[|days| - 1].activities)
  }

  function ExpenseRows(expenses: seq<Expense>, amountText: Amount -> string, rounded: Expense -> string): string
    decreases |expenses|
  {
    if |expenses| == 0 then ""
    else
      ExpenseRows(expenses[..|expenses| - 1], amountText, rounded)
      + ExpenseRow(expenses[|expenses| - 1], amountText, rounded)
  }

  function CsvContent(days: seq<Day>, expenses: seq<Expense>, amountText: Amount -> string, rounded: Expense -> string): string {
    Bom + ItineraryTitle + ItineraryHeader + ItineraryRows(days)
    + "\n\n" + ExpenseTitle + ExpenseHeader + ExpenseRows(expenses, amountText, rounded)
  }

  /** The rows of two lists of days are the rows of the first followed by the rows of the second. */
  lemma {:induction false} ItineraryRowsAppend(a: seq<Day>, b: seq<Day>)
    ensures ItineraryRows(a + b) == ItineraryRows(a) + ItineraryRows(b)
    decreases |b|
  {
    if |b| > 0 {
      var c := a + b;
      var init := b[..|b| - 1];
      var last := b[|b| - 1];
      assert c[..|c| - 1] == a + init && c[|c| - 1] == last;
      assert ItineraryRows(c) == ItineraryRows(a + init) + DayRows(last, last.activities);
      ItineraryRowsAppend(a, init);
      assert ItineraryRows(b) == ItineraryRows(init) + DayRows(last, last.activities);
    } else {
      assert a + b == a;
    }
  }

  /** A day without activities contributes no row. */
  lemma EmptyDayNoRow(days: seq<Day>, day: Day)
    requires day.activities == []
    ensures ItineraryRows(days + [day]) == ItineraryRows(days)
  {
    assert (days + [day])[..|days|] == days;
  }

  /** A day's rows: one per activity, activities in order. */
  lemma {:induction false} DayRowsAppend(day: Day, acts: seq<Activity>, a: Activity)
    ensures DayRows(day, acts + [a]) == DayRows(day, acts) + ActivityRow(day, a)
  {
    assert (acts + [a])[..|acts|] == acts;
  }

  /** The inner `forEach`: a day's activity rows appended in order. */
  method AppendDayRows(text: string, day: Day) returns (csv: string)
    ensures csv == text + DayRows(day, day.activities)
  {
    csv := text;
    var j := 0;
    while j < |day.activities|
      invariant 0 <= j <= |day.activities|
      invariant csv == text + DayRows(day, day.activities[..j])
    {
      DayRowsAppend(day, day.activities[..j], day.activities[j]);
      assert day.activities[..j + 1] == day.activities[..j] + [day.activities[j]];
      csv := csv + ActivityRow(day, day.activities[j]);
      j := j + 1;
    }
    assert day.activities[..j] == day.activities;
  }

  /** `exportToCSV`: the text built step by step, one row per activity and one per expense. */
  method ExportToCsv(days: seq<Day>, expenses: seq<Expense>, amountText: Amount -> string, rounded: Expense -> string)
    returns (csv: string)
    ensures csv == CsvContent(days, expenses, amountText, rounded)
  {
    csv := Bom + ItineraryTitle + ItineraryHeader;
    ghost var head := csv;
    var i := 0;
    while i < |days|
      invariant 0 <= i <= |days|
      invariant csv == head + ItineraryRows(days[..i])
    {
      assert days[..i + 1][..i] == days[..i];
      csv := AppendDayRows(csv, days[i]);
      i := i + 1;
    }
    assert days[..i] == days;
    csv := csv + "\n\n" + ExpenseTitle + ExpenseHeader;
    csv := AppendExpenseRows(csv, expenses, amountText, rounded);
  }

  /** The second `forEach`: one row per expense, in list order. */
  method AppendExpenseRows(text: string, expenses: seq<Expense>, amountText: Amount -> string, rounded: Expense -> string)
    returns (csv: string)
    ensures csv == text + ExpenseRows(expenses, amountText, rounded)
  {
    csv := text;
    var k := 0;
    while k < |expenses|
      invariant 0 <= k <= |expenses|
      invariant csv == text + ExpenseRows(expenses[..k], amountText, rounded)
    {
      assert expenses[..k + 1][..k] == expenses[..k];
      csv := csv + ExpenseRow(expenses[k], amountText, rounded);
      k := k + 1;
    }
    assert expenses[..k] == expenses;
  }

  // ---------------------------------------------------------------- the weekday cell of a planner date

  lemma NoCharIn(s: string, c: char)
    requires AllDigits(s) && !IsDigit(c)
    ensures c !in s
  {
  }

  lemma {:induction false} RemoveFinalClose(w: string)
    requires ')' !in w
    ensures RemoveFirstClose(w + ")") == w
    decreases |w|
  {
    if |w| == 0 {
      assert w + ")" == ")";
    } else {
      assert (w + ")")[1..] == w[1..] + ")";
      RemoveFinalClose(w[1..]);
      assert [w[0]] + w[1..] == w;
    }
  }

  lemma WeekdayNameFree(k: int)
    requires 0 <= k < 7
    ensures '(' !in WeekdayNames[k] && ')' !in WeekdayNames[k]
  {
  }

  /** The weekday cell of `M/D (W)` is `W`, for digit fields and a `W` without brackets. */
  lemma WeekdayOfText(month: string, day: string, w: string)
    requires AllDigits(month) && AllDigits(day) && '(' !in w && ')' !in w
    ensures WeekdayField(month + "/" + day + " (" + w + ")") == w
  {
    var a := month + "/" + day + " ";
    assert month + "/" + day + " (" + w + ")" == a + "(" + (w + ")");
    NoCharIn(month, '(');
    NoCharIn(day, '(');
    assert '(' !in a;
    MissingCharAbsent(a, "(", '(');
    SplitAfterPiece(a, "(", w + ")");
    assert '(' !in w + ")";
    MissingCharAbsent(w + ")", "(", '(');
    SplitSingle(w + ")", "(");
    var pieces := SplitOn(a + "(" + (w + ")"), "(");
    assert pieces == [a, w + ")"];
    RemoveFinalClose(w);
  }

  /** The weekday cell of a display text the planner wrote is that day's weekday. */
  lemma WeekdayOfDisplay(n: int)
    ensures WeekdayField(FormatDisplay(n)) == WeekdayNames[Weekday(n)]
  {
    var d := FromDayNumber(n);
    WeekdayNameFree(Weekday(n));
    WeekdayOfText(NatToString(d.month), NatToString(d.day), WeekdayNames[Weekday(n)]);
  }
}
