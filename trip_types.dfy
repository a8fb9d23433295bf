/**
 * The planner's records (types.ts): weather, to-dos, activities, days,
 * expenses and plan metadata. Optional properties are `Option`s; an optional
 * text counts as "set" in the source's truthiness sense only when present and
 * non-empty.
 */
module TripTypes {

  import opened Wrappers

  datatype Condition = Sunny | Cloudy | Rain | Snow

  datatype ActivityType = FLIGHT | HOTEL | ACTIVITY | TRANSPORT | FOOD

  /** A weather record: a day range (`tempMin`/`tempMax`) or a point (`temp`); temperatures already rounded. */
  datatype WeatherData = WeatherData(
    tempMin: Option<int>,
    tempMax: Option<int>,
    temp: Option<int>,
    condition: Condition,
    isReference: Option<bool>)

  datatype TodoItem = TodoItem(id: string, text: string, completed: bool)

  /** ItineraryItem. */
  datatype Activity = Activity(
    id: string,
    time: string,
    title: string,
    location: Option<string>,
    description: Option<string>,
    kind: ActivityType,
    googleMapLink: Option<string>,
    todos: Option<seq<TodoItem>>,
    notes: Option<string>,
    weatherInfo: Option<WeatherData>)

  /** DayItinerary. */
  datatype Day = Day(
    id: string,
    date: string,
    displayDate: string,
    location: string,
    subtitle: Option<string>,
    weatherInfo: Option<WeatherData>,
    activities: seq<Activity>)

  datatype Currency = JPY | TWD

  /** An amount is the number `parseFloat` reads from the text entered; arithmetic on it is not modelled. */
  datatype Amount = ParsedFrom(text: string)

  datatype Expense = Expense(
    id: string,
    date: string,
    amount: Amount,
    currency: Currency,
    category: string,
    description: string)

  /** TripPlan (components/Home.tsx). */
  datatype TripPlan = TripPlan(
    id: string,
    title: string,
    subtitle: Option<string>,
    startDate: string,
    createdAt: int)

  /** An optional text that JavaScript treats as true: present and not empty. */
  predicate HasText(s: Option<string>) {
    s.Some? && s.value != ""
  }

  function ActivityId(a: Activity): string { a.id }
  function DayId(d: Day): string { d.id }
  function TodoId(t: TodoItem): string { t.id }
  function ExpenseId(e: Expense): string { e.id }
  function PlanId(p: TripPlan): string { p.id }
}
