/**
 * The expense screen of components/ExpenseTracker.tsx: the entry form, the
 * add and delete handlers (which hand the new list to the planner), and the
 * grouping of expenses by date, newest date first. Currency conversion is
 * floating point and enters as the text it produces.
 */
module ExpenseTracker {

  import opened Wrappers
  import opened Calendar
  import opened TripTypes
  import opened Lists

  /** `handleDelete`: the list without the expense `id`. */
  function DeleteExpense(expenses: seq<Expense>, id: string): (r: seq<Expense>)
    ensures |r| <= |expenses|
  {
    Without(expenses, ExpenseId, id)
  }

  /** A deletion drops exactly the expenses with that id and keeps the others in order. */
  lemma DeleteExpenseSpec(expenses: seq<Expense>, id: string)
    ensures var r := DeleteExpense(expenses, id);
      && (forall i :: 0 <= i < |r| ==> r[i].id != id)
      && (forall e: Expense :: e.id != id ==> multiset(r)[e] == multiset(expenses)[e])
      && IsSubsequence(r, expenses)
  {
    WithoutSpec(expenses, ExpenseId, id);
  }

  /** The entry form. */
  class ExpenseForm {
    var jpyAmount: string
    var twdAmount: string
    var primaryCurrency: Currency
    var description: string
    var category: string
    var date: string

    /** Empty amounts and description, yen first, `Food`, and today's date. */
    constructor (todayIso: string)
      ensures jpyAmount == "" && twdAmount == "" && description == ""
      ensures primaryCurrency == JPY && category == "Food" && date == todayIso
    {
      jpyAmount := "";
      twdAmount := "";
      primaryCurrency := JPY;
      description := "";
      category := "Food";
      date := todayIso;
    }

    /**
     * `handleJpyChange`: the yen field takes the text; an empty text empties the
     * NT$ field, and a number fills it with `converted`, the rounded
     * conversion's text (`None` where `parseFloat` reads no number).
     */
    method JpyChange(value: string, converted: Option<string>)
      modifies this
      ensures jpyAmount == value
      ensures twdAmount == if value == "" then "" else if converted.Some? then converted.value else old(twdAmount)
      ensures primaryCurrency == old(primaryCurrency) && description == old(description)
      ensures category == old(category) && date == old(date)
    {
      jpyAmount := value;
      if value == "" {
        twdAmount := "";
      } else if converted.Some? {
        twdAmount := converted.value;
      }
    }

    /** `handleTwdChange`, the mirror image. */
    method TwdChange(value: string, converted: Option<string>)
      modifies this
      ensures twdAmount == value
      ensures jpyAmount == if value == "" then "" else if converted.Some? then converted.value else old(jpyAmount)
      ensures primaryCurrency == old(primaryCurrency) && description == old(description)
      ensures category == old(category) && date == old(date)
    {
      twdAmount := value;
      if value == "" {
        jpyAmount := "";
      } else if converted.Some? {
        jpyAmount := converted.value;
      }
    }

    /**
     * `handleAdd`: without an amount or a description nothing happens;
     * otherwise the new expense, in the primary currency and with that
     * currency's amount, goes first, and the amounts and description clear.
     */
    method Add(expenses: seq<Expense>, newId: string) returns (update: Option<seq<Expense>>)
      modifies this
      ensures (old(jpyAmount) == "" && old(twdAmount) == "") || old(description) == "" ==>
        && update.None?
        && jpyAmount == old(jpyAmount) && twdAmount == old(twdAmount) && description == old(description)
      ensures !((old(jpyAmount) == "" && old(twdAmount) == "") || old(description) == "") ==>
        && update == Some([Expense(newId, old(date),
             ParsedFrom(if old(primaryCurrency) == JPY then old(jpyAmount) else old(twdAmount)),
             old(primaryCurrency), old(category), old(description))] + expenses)
        && jpyAmount == "" && twdAmount == "" && description == ""
      ensures primaryCurrency == old(primaryCurrency) && category == old(category) && date == old(date)
    {
      if (jpyAmount == "" && twdAmount == "") || description == "" {
        return None;
      }
      var finalAmount := if primaryCurrency == JPY then ParsedFrom(jpyAmount) else ParsedFrom(twdAmount);
      var newExpense := Expense(newId, date, finalAmount, primaryCurrency, category, description);
      update := Some([newExpense] + expenses);
      jpyAmount := "";
      twdAmount := "";
      description := "";
    }
  }

  // ---------------------------------------------------------------- grouping by date

  /** The expenses of one date, in list order. */
  function OnDate(expenses: seq<Expense>, d: string): (r: seq<Expense>)
    ensures forall i :: 0 <= i < |r| ==> r[i].date == d
    decreases |expenses|
  {
    if |expenses| == 0 then []
    else
      var last := expenses[|expenses| - 1];
      OnDate(expenses[..|expenses| - 1], d) + (if last.date == d then [last] else [])
  }

  /** A group keeps the expenses in list order. */
  lemma {:induction false} OnDateKeepsOrder(expenses: seq<Expense>, d: string)
    ensures IsSubsequence(OnDate(expenses, d), expenses)
    decreases |expenses|
  {
    if |expenses| > 0 {
      var init := expenses[..|expenses| - 1];
      var last := expenses[|expenses| - 1];
      OnDateKeepsOrder(init, d);
      assert expenses == init + [last];
      SubsequenceExtend(OnDate(init, d), init, last);
      if last.date == d {
        assert OnDate(expenses, d) == OnDate(init, d) + [last];
      } else {
        assert OnDate(expenses, d) == OnDate(init, d);
      }
    }
  }

  /** The dates of a list, each once, in order of first appearance. */
  function DatesOf(expenses: seq<Expense>): (r: seq<string>)
    decreases |expenses|
  {
    if |expenses| == 0 then []
    else
      var before := DatesOf(expenses[..|expenses| - 1]);
      if expenses[|expenses| - 1].date in before then before else before + [expenses[|expenses| - 1].date]
  }

  /** No entry appears twice. */
  predicate Distinct(s: seq<string>) {
    forall i, j :: 0 <= i < j < |s| ==> s[i] != s[j]
  }

  /** Every date appears once. */
  lemma {:induction false} DatesOfDistinct(expenses: seq<Expense>)
    ensures Distinct(DatesOf(expenses))
    decreases |expenses|
  {
    if |expenses| > 0 {
      var before := DatesOf(expenses[..|expenses| - 1]);
      DatesOfDistinct(expenses[..|expenses| - 1]);
      var x := expenses[|expenses| - 1].date;
      if x !in before {
        var r := before + [x];
        forall i, j | 0 <= i < j < |r| ensures r[i] != r[j] {
          assert r[i] == before[i] && before[i] in before;
          if j < |before| {
            assert r[j] == before[j];
          }
        }
      }
    }
  }

  /** Exactly the dates of the list appear. */
  lemma {:induction false} DatesOfCover(expenses: seq<Expense>)
    ensures forall i :: 0 <= i < |expenses| ==> expenses[i].date in DatesOf(expenses)
    ensures forall d :: d in DatesOf(expenses) ==> exists i :: 0 <= i < |expenses| && expenses[i].date == d
    decreases |expenses|
  {
    if |expenses| > 0 {
      var init := expenses[..|expenses| - 1];
      DatesOfCover(init);
      forall i | 0 <= i < |expenses| ensures expenses[i].date in DatesOf(expenses) {
        if i < |init| {
          assert init[i] == expenses[i];
        }
      }
      forall d | d in DatesOf(expenses) ensures exists i :: 0 <= i < |expenses| && expenses[i].date == d {
        if d in DatesOf(init) {
          var i :| 0 <= i < |init| && init[i].date == d;
          assert expenses[i].date == d;
        } else {
          assert expenses[|expenses| - 1].date == d;
        }
      }
    }
  }

  /** Every expense is in exactly one group: the one of its date. */
  lemma {:induction false} GroupsPartition(expenses: seq<Expense>, e: Expense)
    ensures forall d :: multiset(OnDate(expenses, d))[e] == if e.date == d then multiset(expenses)[e] else 0
    decreases |expenses|
  {
    if |expenses| > 0 {
      var init := expenses[..|expenses| - 1];
      GroupsPartition(init, e);
      assert expenses == init + [expenses[|expenses| - 1]];
    }
  }

  /**
   * The grouping of the list: a dictionary from date to the expenses of that
   * date, filled one expense at a time, the order its keys were created in,
   * and those keys sorted for display.
   */
  method GroupByDate(expenses: seq<Expense>) returns (keys: seq<string>, groups: map<string, seq<Expense>>, dates: seq<string>)
    ensures keys == DatesOf(expenses)
    ensures dates == NewestFirst(keys)
    ensures groups.Keys == set d | d in keys
    ensures forall d :: d in groups ==> groups[d] == OnDate(expenses, d)
    ensures forall d :: d in groups ==> IsSubsequence(groups[d], expenses)
  {
    keys := [];
    groups := map[];
    var i := 0;
    while i < |expenses|
      invariant 0 <= i <= |expenses|
      invariant keys == DatesOf(expenses[..i])
      invariant groups.Keys == set d | d in keys
      invariant forall d :: d in groups ==> groups[d] == OnDate(expenses[..i], d)
    {
      var e := expenses[i];
      assert expenses[..i + 1][..i] == expenses[..i];
      if e.date !in groups {
        groups := groups[e.date := [e]];
        keys := keys + [e.date];
        OnDateAbsent(expenses[..i], e.date);
      } else {
        groups := groups[e.date := groups[e.date] + [e]];
      }
      i := i + 1;
    }
    assert expenses[..i] == expenses;
    forall d | d in groups
      ensures IsSubsequence(groups[d], expenses)
    {
      OnDateKeepsOrder(expenses, d);
    }
    dates := NewestFirst(keys);
  }

  lemma {:induction false} OnDateAbsent(expenses: seq<Expense>, d: string)
    requires d !in DatesOf(expenses)
    ensures OnDate(expenses, d) == []
    decreases |expenses|
  {
    if |expenses| > 0 {
      var init := expenses[..|expenses| - 1];
      var before := DatesOf(init);
      assert d !in before;
      OnDateAbsent(init, d);
    }
  }

  // ---------------------------------------------------------------- newest date first

  /*
   * The sort is stated over any reading `rank` of the keys; the list's own
   * order is the one where `rank` is `DayNumberOf`.
   */

  /** `a` sorts before `b`: both read, and `a` ranks higher. */
  predicate Newer(a: string, b: string, rank: string -> Option<int>) {
    rank(a).Some? && rank(b).Some? && rank(a).value > rank(b).value
  }

  /** Insert `x` before the first element that is not newer than it. */
  function InsertByRank(x: string, sorted: seq<string>, rank: string -> Option<int>): (r: seq<string>)
    ensures multiset(r) == multiset(sorted) + multiset{x}
    ensures |r| == |sorted| + 1
    ensures forall k :: 0 <= k < |r| ==> r[k] == x || r[k] in sorted
    decreases |sorted|
  {
    if |sorted| == 0 || !Newer(sorted[0], x, rank) then [x] + sorted
    else
      assert sorted == [sorted[0]] + sorted[1..];
      [sorted[0]] + InsertByRank(x, sorted[1..], rank)
  }

  /** A stable insertion sort, highest rank first. */
  function SortByRank(keys: seq<string>, rank: string -> Option<int>): (r: seq<string>)
    ensures multiset(r) == multiset(keys)
    decreases |keys|
  {
    if |keys| == 0 then []
    else
      assert keys == [keys[0]] + keys[1..];
      InsertByRank(keys[0], SortByRank(keys[1..], rank), rank)
  }

  /** The group keys in the order the list shows them: newest date first. */
  function NewestFirst(keys: seq<string>): (r: seq<string>)
    ensures multiset(r) == multiset(keys)
  {
    SortByRank(keys, DayNumberOf)
  }

  predicate AllRead(keys: seq<string>, rank: string -> Option<int>) {
    forall i :: 0 <= i < |keys| ==> rank(keys[i]).Some?
  }

  predicate Descending(keys: seq<string>, rank: string -> Option<int>)
    requires AllRead(keys, rank)
  {
    forall i, j :: 0 <= i < j < |keys| ==> rank(keys[i]).value >= rank(keys[j]).value
  }

  /** Inserting a key ranked at most `bound` among keys ranked at most `bound` keeps them so. */
  lemma InsertBelow(x: string, sorted: seq<string>, rank: string -> Option<int>, bound: int)
    requires rank(x).Some? && rank(x).value <= bound
    requires forall k :: 0 <= k < |sorted| ==> rank(sorted[k]).Some? && rank(sorted[k]).value <= bound
    ensures var r := InsertByRank(x, sorted, rank);
      forall k :: 0 <= k < |r| ==> rank(r[k]).Some? && rank(r[k]).value <= bound
  {
    var r := InsertByRank(x, sorted, rank);
    forall k | 0 <= k < |r| ensures rank(r[k]).Some? && rank(r[k]).value <= bound {
      if r[k] != x {
        var m :| 0 <= m < |sorted| && sorted[m] == r[k];
      }
    }
  }

  lemma {:induction false} InsertKeepsDescending(x: string, sorted: seq<string>, rank: string -> Option<int>)
    requires rank(x).Some? && AllRead(sorted, rank) && Descending(sorted, rank)
    ensures AllRead(InsertByRank(x, sorted, rank), rank) && Descending(InsertByRank(x, sorted, rank), rank)
    decreases |sorted|
  {
    var r := InsertByRank(x, sorted, rank);
    if |sorted| == 0 || !Newer(sorted[0], x, rank) {
      assert r == [x] + sorted;
    } else {
      var tail := sorted[1..];
      InsertKeepsDescending(x, tail, rank);
      InsertBelow(x, tail, rank, rank(sorted[0]).value);
      assert r == [sorted[0]] + InsertByRank(x, tail, rank);
    }
  }

  /** With every key read, the sort puts them highest rank first. */
  lemma {:induction false} SortByRankSorts(keys: seq<string>, rank: string -> Option<int>)
    requires AllRead(keys, rank)
    ensures AllRead(SortByRank(keys, rank), rank) && Descending(SortByRank(keys, rank), rank)
    decreases |keys|
  {
    if |keys| > 0 {
      SortByRankSorts(keys[1..], rank);
      InsertKeepsDescending(keys[0], SortByRank(keys[1..], rank), rank);
    }
  }

  /** With every date readable, the group keys come out newest date first. */
  lemma NewestFirstSorts(keys: seq<string>)
    requires forall i :: 0 <= i < |keys| ==> DayNumberOf(keys[i]).Some?
    ensures var r := NewestFirst(keys);
      forall i, j :: 0 <= i < j < |r| ==>
        (DayNumberOf(r[i]).Some? && DayNumberOf(r[j]).Some? && DayNumberOf(r[i]).value >= DayNumberOf(r[j]).value)
  {
    assert AllRead(keys, DayNumberOf);
    SortByRankSorts(keys, DayNumberOf);
  }
}
