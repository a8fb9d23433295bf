/**
 * The plan list of App.tsx: first-run set-up and migration of a single-trip
 * store, creating, deleting and renaming plans, and the per-plan storage keys.
 * The browser store is a map from key to stored value; a value written with
 * `JSON.stringify` is held as the value it serialises.
 */
module App {

  import opened Wrappers
  import opened TripTypes
  import opened Lists
  import Planner

  const PlansKey: string := "tabilog_plans"
  const InitializedKey: string := "tabilog_initialized"
  const LegacyItineraryKey: string := "tabilog_itinerary"
  const LegacyExpensesKey: string := "tabilog_expenses"
  const LegacyTitleKey: string := "tabilog_title"

  const ItineraryPrefix: string := "tabilog_itinerary_"
  const ExpensesPrefix: string := "tabilog_expenses_"

  /** The title of a migrated trip when the old store has none. */
  const DefaultTitle: string := "我的旅行"
  const DemoTitle: string := "2026 長野草津合掌村旅遊"
  const DemoStart: string := "2026-02-03"

  /** A stored value: text as written, or the value a JSON text serialises. */
  datatype Stored =
    | Text(text: string)
    | Itinerary(days: seq<Day>)
    | Expenses(expenses: seq<Expense>)
    | PlanList(plans: seq<TripPlan>)

  type Storage = map<string, Stored>

  /** `localStorage.getItem(key)` is truthy: the key is there and its text is not empty. */
  predicate Present(storage: Storage, key: string) {
    key in storage && storage[key] != Text("")
  }

  function ItineraryKey(planId: string): string {
    ItineraryPrefix + planId
  }

  function ExpensesKey(planId: string): string {
    ExpensesPrefix + planId
  }

  /** Each plan's two keys are its own: no other plan's key and no fixed key coincides with them. */
  lemma StorageKeysDistinct(a: string, b: string)
    ensures ItineraryKey(a) == ItineraryKey(b) ==> a == b
    ensures ExpensesKey(a) == ExpensesKey(b) ==> a == b
    ensures ItineraryKey(a) != ExpensesKey(b)
    ensures ItineraryKey(a) !in {PlansKey, InitializedKey, LegacyItineraryKey, LegacyExpensesKey, LegacyTitleKey}
    ensures ExpensesKey(a) !in {PlansKey, InitializedKey, LegacyItineraryKey, LegacyExpensesKey, LegacyTitleKey}
  {
    if ItineraryKey(a) == ItineraryKey(b) {
      assert a == ItineraryKey(a)[|ItineraryPrefix|..];
      assert b == ItineraryKey(b)[|ItineraryPrefix|..];
    }
    if ExpensesKey(a) == ExpensesKey(b) {
      assert a == ExpensesKey(a)[|ExpensesPrefix|..];
      assert b == ExpensesKey(b)[|ExpensesPrefix|..];
    }
    assert ItineraryKey(a)[8] == 'i' && ExpensesKey(b)[8] == 'e';
    assert ItineraryKey(a)[9] == 't' && InitializedKey[9] == 'n';
    assert PlansKey[8] == 'p' && LegacyTitleKey[9] == 'i';
    assert |ItineraryKey(a)| > |LegacyItineraryKey| && ExpensesKey(a)[8] == 'e';
    assert |ExpensesKey(a)| > |LegacyExpensesKey|;
  }

  /** Everything the application keeps: the plan list, the open plan and the store. */
  datatype AppState = AppState(plans: seq<TripPlan>, activePlanId: Option<string>, storage: Storage)

  /** The stored plan list, as the first render reads it. */
  function SavedPlans(storage: Storage): (r: seq<TripPlan>)
    ensures !Present(storage, PlansKey) ==> r == []
  {
    if PlansKey in storage && storage[PlansKey].PlanList? then storage[PlansKey].plans else []
  }

  /** Reading the store back after the plan list was written under its key gives that list. */
  lemma SavedPlansRoundTrip(storage: Storage, plans: seq<TripPlan>)
    ensures SavedPlans(storage[PlansKey := PlanList(plans)]) == plans
  {
  }

  /** The old store's title, when it has one. */
  function LegacyTitle(storage: Storage): (r: string)
    ensures r != ""
    ensures !Present(storage, LegacyTitleKey) ==> r == DefaultTitle
    ensures Present(storage, LegacyTitleKey) && storage[LegacyTitleKey].Text? ==> r == storage[LegacyTitleKey].text
  {
    if Present(storage, LegacyTitleKey) && storage[LegacyTitleKey].Text? then storage[LegacyTitleKey].text
    else DefaultTitle
  }

  /**
   * The first-run effect. `legacyFirstDate` is the date of the first day the
   * old itinerary text parses to (`None` where it parses to no such day),
   * `demo` the built-in itinerary, `now` the clock and `todayIso` today's date.
   */
  function Startup(s: AppState, newId: string, now: int, todayIso: string,
                   legacyFirstDate: Option<string>, demo: seq<Day>): (r: AppState)
    ensures r.activePlanId == s.activePlanId
    ensures Present(r.storage, InitializedKey)
    ensures |s.plans| > 0 ==> r.plans == s.plans
    ensures |s.plans| > 0 || Present(s.storage, InitializedKey) ==>
      r.storage == s.storage[InitializedKey := if Present(s.storage, InitializedKey) then s.storage[InitializedKey] else Text("true")]
    ensures |s.plans| == 0 && Present(s.storage, InitializedKey) ==> r == s
    ensures |s.plans| == 0 && !Present(s.storage, InitializedKey) ==>
      |r.plans| == 1 && r.plans[0].id == newId && r.plans[0].createdAt == now && ItineraryKey(newId) in r.storage
  {
    if |s.plans| > 0 then
      if Present(s.storage, InitializedKey) then s
      else s.(storage := s.storage[InitializedKey := Text("true")])
    else if Present(s.storage, InitializedKey) then s
    else if Present(s.storage, LegacyItineraryKey) then
      var start := if legacyFirstDate.Some? && legacyFirstDate.value != "" then legacyFirstDate.value else todayIso;
      var plan := TripPlan(newId, LegacyTitle(s.storage), Some("Planning Mode"), start, now);
      var copied := s.storage[ItineraryKey(newId) := s.storage[LegacyItineraryKey]];
      var withExpenses :=
        if Present(s.storage, LegacyExpensesKey) then copied[ExpensesKey(newId) := s.storage[LegacyExpensesKey]]
        else copied;
      StorageKeysDistinct(newId, newId);
      s.(plans := [plan], storage := withExpenses[InitializedKey := Text("true")])
    else
      var start := if |demo| > 0 && demo[0].date != "" then demo[0].date else DemoStart;
      var plan := TripPlan(newId, DemoTitle, Some("Trip to Japan"), start, now);
      StorageKeysDistinct(newId, newId);
      var stored := s.storage[ItineraryKey(newId) := Itinerary(demo)][ExpensesKey(newId) := Expenses([])];
      s.(plans := [plan], storage := stored[InitializedKey := Text("true")])
  }

  /**
   * A first run over an old single-trip store makes one plan of it: the
   * itinerary is copied under the plan's key, the expenses only if there are
   * any, and every old key is left as it was.
   */
  lemma MigrationSpec(s: AppState, newId: string, now: int, todayIso: string,
                      legacyFirstDate: Option<string>, demo: seq<Day>)
    requires |s.plans| == 0 && !Present(s.storage, InitializedKey) && Present(s.storage, LegacyItineraryKey)
    ensures var r := Startup(s, newId, now, todayIso, legacyFirstDate, demo);
      && r.plans == [TripPlan(newId, LegacyTitle(s.storage), Some("Planning Mode"),
           if legacyFirstDate.Some? && legacyFirstDate.value != "" then legacyFirstDate.value else todayIso, now)]
      && r.storage[ItineraryKey(newId)] == s.storage[LegacyItineraryKey]
      && (Present(s.storage, LegacyExpensesKey) ==> r.storage[ExpensesKey(newId)] == s.storage[LegacyExpensesKey])
      && (!Present(s.storage, LegacyExpensesKey) ==>
            (ExpensesKey(newId) in r.storage <==> ExpensesKey(newId) in s.storage))
      && (forall k :: k in s.storage && k != ItineraryKey(newId) && k != ExpensesKey(newId) && k != InitializedKey ==>
            k in r.storage && r.storage[k] == s.storage[k])
  {
    StorageKeysDistinct(newId, newId);
  }

  /** A first run without an old store makes the demonstration plan with no expenses. */
  lemma DemoSpec(s: AppState, newId: string, now: int, todayIso: string,
                 legacyFirstDate: Option<string>, demo: seq<Day>)
    requires |s.plans| == 0 && !Present(s.storage, InitializedKey) && !Present(s.storage, LegacyItineraryKey)
    ensures var r := Startup(s, newId, now, todayIso, legacyFirstDate, demo);
      && r.plans == [TripPlan(newId, DemoTitle, Some("Trip to Japan"),
           if |demo| > 0 && demo[0].date != "" then demo[0].date else DemoStart, now)]
      && r.storage[ItineraryKey(newId)] == Itinerary(demo)
      && r.storage[ExpensesKey(newId)] == Expenses([])
  {
    StorageKeysDistinct(newId, newId);
  }

  /** The effect runs again whenever the plan count changes; a second run changes nothing. */
  lemma StartupIdempotent(s: AppState, newId: string, now: int, todayIso: string,
                          legacyFirstDate: Option<string>, demo: seq<Day>,
                          newId': string, now': int, todayIso': string,
                          legacyFirstDate': Option<string>, demo': seq<Day>)
    ensures var once := Startup(s, newId, now, todayIso, legacyFirstDate, demo);
      Startup(once, newId', now', todayIso', legacyFirstDate', demo') == once
  {
    var once := Startup(s, newId, now, todayIso, legacyFirstDate, demo);
    assert Present(once.storage, InitializedKey);
    assert once.storage[InitializedKey := once.storage[InitializedKey]] == once.storage;
  }

  // ---------------------------------------------------------------- plan handlers

  /** `handleCreatePlan`: the new plan goes last, with one day and no expenses, and opens. */
  function Created(s: AppState, title: string, startDate: string, newId: string, dayId: string, now: int): (r: AppState)
    ensures r.plans == s.plans + [TripPlan(newId, title, Some("Planning Mode"), startDate, now)]
    ensures r.activePlanId == Some(newId)
    ensures ItineraryKey(newId) in r.storage && ExpensesKey(newId) in r.storage
    ensures r.storage[ItineraryKey(newId)] ==
      Itinerary([Day(dayId, startDate, Planner.FormatDateDisplay(startDate), Planner.NewLocation, None, None, [])])
    ensures r.storage[ExpensesKey(newId)] == Expenses([])
    ensures r.storage.Keys == s.storage.Keys + {ItineraryKey(newId), ExpensesKey(newId)}
    ensures forall k :: k in s.storage && k != ItineraryKey(newId) && k != ExpensesKey(newId) ==> r.storage[k] == s.storage[k]
  {
    StorageKeysDistinct(newId, newId);
    var plan := TripPlan(newId, title, Some("Planning Mode"), startDate, now);
    var firstDay := Day(dayId, startDate, Planner.FormatDateDisplay(startDate), Planner.NewLocation, None, None, []);
    var stored := s.storage[ItineraryKey(newId) := Itinerary([firstDay])][ExpensesKey(newId) := Expenses([])];
    AppState(s.plans + [plan], Some(newId), stored)
  }

  /** `handleDeletePlan`: the plan and both of its keys go; the open plan closes only if it was this one. */
  function Deleted(s: AppState, id: string): (r: AppState)
    ensures |r.plans| <= |s.plans|
    ensures r.activePlanId == if s.activePlanId == Some(id) then None else s.activePlanId
  {
    AppState(Without(s.plans, PlanId, id),
             if s.activePlanId == Some(id) then None else s.activePlanId,
             s.storage - {ItineraryKey(id), ExpensesKey(id)})
  }

  /** A deletion removes every plan with that id and its stored days and expenses, and nothing else. */
  lemma DeletedSpec(s: AppState, id: string)
    ensures var r := Deleted(s, id);
      && (forall i :: 0 <= i < |r.plans| ==> r.plans[i].id != id)
      && IsSubsequence(r.plans, s.plans)
      && ItineraryKey(id) !in r.storage && ExpensesKey(id) !in r.storage
      && (forall k :: k in s.storage && k != ItineraryKey(id) && k != ExpensesKey(id) ==>
            k in r.storage && r.storage[k] == s.storage[k])
  {
    WithoutSpec(s.plans, PlanId, id);
  }

  /** Once the store is set up, deleting the last plan leaves the home screen empty: no demo comes back. */
  lemma DeletedStaysDeleted(s: AppState, id: string, newId: string, now: int, todayIso: string,
                            legacyFirstDate: Option<string>, demo: seq<Day>)
    requires Present(s.storage, InitializedKey)
    ensures var d := Deleted(s, id);
      |d.plans| == 0 ==> Startup(d, newId, now, todayIso, legacyFirstDate, demo) == d
  {
    StorageKeysDistinct(id, id);
    var d := Deleted(s, id);
    assert InitializedKey in d.storage && d.storage[InitializedKey] == s.storage[InitializedKey];
  }

  /** `handleUpdatePlanDetails`: the plan `id` takes the new title and subtitle. */
  function Renamed(plans: seq<TripPlan>, id: string, title: string, subtitle: string): (r: seq<TripPlan>)
    ensures |r| == |plans|
  {
    UpdateWhere(plans, PlanId, id, (p: TripPlan) => p.(title := title, subtitle := Some(subtitle)))
  }

  /** Renaming touches the title and subtitle of the matching plans and nothing else. */
  lemma RenamedSpec(plans: seq<TripPlan>, id: string, title: string, subtitle: string)
    ensures var r := Renamed(plans, id, title, subtitle);
      forall i :: 0 <= i < |r| ==>
        && r[i].id == plans[i].id && r[i].startDate == plans[i].startDate && r[i].createdAt == plans[i].createdAt
        && (plans[i].id == id ==> r[i].title == title && r[i].subtitle == Some(subtitle))
        && (plans[i].id != id ==> r[i] == plans[i])
  {
    var r := Renamed(plans, id, title, subtitle);
    forall i | 0 <= i < |r| ensures r[i] == if plans[i].id == id then plans[i].(title := title, subtitle := Some(subtitle)) else plans[i] {
      assert PlanId(plans[i]) == plans[i].id;
    }
  }

  /** The open plan, or `None` when the open id names no plan (the planner is not shown then). */
  function ActivePlan(s: AppState): (r: Option<TripPlan>)
    ensures r.Some? ==> s.activePlanId.Some? && r.value.id == s.activePlanId.value && r.value in s.plans
    ensures r.None? <==>
      s.activePlanId.None? || s.activePlanId.value == "" ||
      forall i :: 0 <= i < |s.plans| ==> s.plans[i].id != s.activePlanId.value
    ensures r.Some? ==> r.value == s.plans[IndexOf(s.plans, PlanId, s.activePlanId.value)]
  {
    if s.activePlanId.Some? && s.activePlanId.value != "" then Find(s.plans, PlanId, s.activePlanId.value) else None
  }

  /** A plan just created is the one the planner opens, when its id is new. */
  lemma CreatedOpens(s: AppState, title: string, startDate: string, newId: string, dayId: string, now: int)
    requires newId != ""
    requires forall i :: 0 <= i < |s.plans| ==> s.plans[i].id != newId
    ensures ActivePlan(Created(s, title, startDate, newId, dayId, now))
      == Some(TripPlan(newId, title, Some("Planning Mode"), startDate, now))
  {
    var r := Created(s, title, startDate, newId, dayId, now);
    var k := IndexOf(r.plans, PlanId, newId);
    assert PlanId(r.plans[|s.plans|]) == newId;
    if 0 <= k < |s.plans| {
      assert r.plans[k] == s.plans[k];
    }
  }

  /** The application: its plan list, the open plan and the browser store. */
  class TripApp {
    var plans: seq<TripPlan>
    var activePlanId: Option<string>
    var storage: Storage

    function State(): AppState
      reads this
    {
      AppState(plans, activePlanId, storage)
    }

    /** The first render: the stored plan list and no plan open. */
    constructor (saved: Storage)
      ensures plans == SavedPlans(saved) && activePlanId.None? && storage == saved
    {
      plans := SavedPlans(saved);
      activePlanId := None;
      storage := saved;
    }

    /** The first-run effect, writing the store key by key. */
    method InitEffect(newId: string, now: int, todayIso: string, legacyFirstDate: Option<string>, demo: seq<Day>)
      modifies this
      ensures State() == Startup(old(State()), newId, now, todayIso, legacyFirstDate, demo)
    {
      var hasInitialized := Present(storage, InitializedKey);
      if |plans| > 0 {
        if !hasInitialized {
          storage := storage[InitializedKey := Text("true")];
        }
        return;
      }
      if hasInitialized {
        return;
      }
      if Present(storage, LegacyItineraryKey) {
        var legacyItinerary := storage[LegacyItineraryKey];
        var hasExpenses := Present(storage, LegacyExpensesKey);
        var legacyExpenses := if hasExpenses then storage[LegacyExpensesKey] else Text("");
        var title := LegacyTitle(storage);
        var start := if legacyFirstDate.Some? && legacyFirstDate.value != "" then legacyFirstDate.value else todayIso;
        var plan := TripPlan(newId, title, Some("Planning Mode"), start, now);
        storage := storage[ItineraryKey(newId) := legacyItinerary];
        if hasExpenses {
          storage := storage[ExpensesKey(newId) := legacyExpenses];
        }
        storage := storage[InitializedKey := Text("true")];
        plans := [plan];
      } else {
        var start := if |demo| > 0 && demo[0].date != "" then demo[0].date else DemoStart;
        var plan := TripPlan(newId, DemoTitle, Some("Trip to Japan"), start, now);
        storage := storage[ItineraryKey(newId) := Itinerary(demo)];
        storage := storage[ExpensesKey(newId) := Expenses([])];
        storage := storage[InitializedKey := Text("true")];
        plans := [plan];
      }
    }

    /** The effect that writes the plan list back whenever it changes. */
    method PersistPlans()
      modifies this
      ensures storage == old(storage)[PlansKey := PlanList(plans)]
      ensures plans == old(plans) && activePlanId == old(activePlanId)
      ensures SavedPlans(storage) == plans
    {
      SavedPlansRoundTrip(storage, plans);
      storage := storage[PlansKey := PlanList(plans)];
    }

    method CreatePlan(title: string, startDate: string, newId: string, dayId: string, now: int)
      modifies this
      ensures State() == Created(old(State()), title, startDate, newId, dayId, now)
    {
      var plan := TripPlan(newId, title, Some("Planning Mode"), startDate, now);
      var firstDay := Day(dayId, startDate, Planner.FormatDateDisplay(startDate), Planner.NewLocation, None, None, []);
      storage := storage[ItineraryKey(newId) := Itinerary([firstDay])];
      storage := storage[ExpensesKey(newId) := Expenses([])];
      plans := plans + [plan];
      activePlanId := Some(newId);
    }

    method DeletePlan(id: string)
      modifies this
      ensures State() == Deleted(old(State()), id)
    {
      plans := Without(plans, PlanId, id);
      storage := storage - {ItineraryKey(id)};
      storage := storage - {ExpensesKey(id)};
      if activePlanId == Some(id) {
        activePlanId := None;
      }
    }

    method UpdatePlanDetails(id: string, title: string, subtitle: string)
      modifies this
      ensures plans == Renamed(old(plans), id, title, subtitle)
      ensures activePlanId == old(activePlanId) && storage == old(storage)
    {
      plans := Renamed(plans, id, title, subtitle);
    }

    /** The render: an open id that names no plan is cleared, and home shows instead. */
    method Render() returns (shown: Option<TripPlan>)
      modifies this
      ensures shown == ActivePlan(old(State()))
      ensures activePlanId == if old(activePlanId).Some? && old(activePlanId).value != "" && shown.None? then None else old(activePlanId)
      ensures plans == old(plans) && storage == old(storage)
    {
      shown := None;
      if activePlanId.Some? && activePlanId.value != "" {
        shown := Find(plans, PlanId, activePlanId.value);
        if shown.None? {
          activePlanId := None;
        }
      }
    }
  }
}
