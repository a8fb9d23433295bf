/**
 * The day view of components/Timeline.tsx.
 * The handlers build the day they hand to the planner's day-save handler;
 * here they return it (`None` where the source makes no call).
 */
module Timeline {

  import opened Wrappers
  import opened Text
  import opened TripTypes
  import opened Lists
  import opened EditModal

  /** `{ ...act, ...patch }`: every property the patch has replaces the activity's. */
  function Overlay(act: Activity, patch: ItemPatch): (r: Activity)
    ensures r.id == if patch.id.Some? then patch.id.value else act.id
    ensures patch.time.Some? ==> r.time == patch.time.value
    ensures patch.time.None? ==> r.time == act.time
    ensures patch.title.Some? ==> r.title == patch.title.value
    ensures patch.title.None? ==> r.title == act.title
    ensures r.location == if patch.location.Some? then patch.location else act.location
    ensures r.description == if patch.description.Some? then patch.description else act.description
    ensures r.kind == if patch.kind.Some? then patch.kind.value else act.kind
    ensures r.googleMapLink == if patch.googleMapLink.Some? then patch.googleMapLink else act.googleMapLink
    ensures r.notes == if patch.notes.Some? then patch.notes else act.notes
    ensures r.todos == if patch.todos.Some? then patch.todos else act.todos
    ensures r.weatherInfo == if patch.weatherInfo.Some? then patch.weatherInfo else act.weatherInfo
    ensures patch == NoChange ==> r == act
  {
    Activity(
      patch.id.GetOr(act.id),
      patch.time.GetOr(act.time),
      patch.title.GetOr(act.title),
      if patch.location.Some? then patch.location else act.location,
      if patch.description.Some? then patch.description else act.description,
      patch.kind.GetOr(act.kind),
      if patch.googleMapLink.Some? then patch.googleMapLink else act.googleMapLink,
      if patch.todos.Some? then patch.todos else act.todos,
      if patch.notes.Some? then patch.notes else act.notes,
      if patch.weatherInfo.Some? then patch.weatherInfo else act.weatherInfo)
  }

  /** Overlaying the same patch twice is overlaying it once. */
  lemma OverlayIdempotent(act: Activity, patch: ItemPatch)
    ensures Overlay(Overlay(act, patch), patch) == Overlay(act, patch)
  {
  }

  /**
   * A new activity: the defaults `TBA`, `New Activity` and `ACTIVITY`, then
   * every property of the form spread over them, so a default survives only
   * where the form lacks the property; the id is fresh unless the form has one.
   */
  function NewItem(patch: ItemPatch, newId: string): (r: Activity)
    ensures r.time == (if patch.time.Some? then patch.time.value else "TBA")
    ensures r.title == (if patch.title.Some? then patch.title.value else "New Activity")
    ensures r.kind == (if patch.kind.Some? then patch.kind.value else ACTIVITY)
    ensures r.id == (if patch.id.Some? then patch.id.value else newId)
    ensures r.location == patch.location && r.description == patch.description
    ensures r.googleMapLink == patch.googleMapLink && r.todos == patch.todos
    ensures r.notes == patch.notes && r.weatherInfo == patch.weatherInfo
  {
    var defaults := Activity(newId, "TBA", "New Activity", None, None, ACTIVITY, None, None, None, None);
    Overlay(defaults, patch)
  }

  // ---------------------------------------------------------------- day transforms

  function ToggledTodos(todos: seq<TodoItem>, todoId: string): (r: seq<TodoItem>)
    ensures |r| == |todos|
    ensures forall i :: 0 <= i < |r| ==> r[i].id == todos[i].id && r[i].text == todos[i].text
    ensures forall i :: 0 <= i < |r| ==> (r[i].completed != todos[i].completed <==> todos[i].id == todoId)
  {
    seq(|todos|, i requires 0 <= i < |todos| =>
      if todos[i].id == todoId then todos[i].(completed := !todos[i].completed) else todos[i])
  }

  /** `handleTodoToggle`: flip the to-do `todoId` of the activity `activityId`. */
  function ToggleTodo(day: Day, activityId: string, todoId: string): (r: Day)
    ensures r.(activities := day.activities) == day
    ensures |r.activities| == |day.activities|
    ensures forall i :: 0 <= i < |r.activities| ==>
      r.activities[i].(todos := day.activities[i].todos) == day.activities[i]
      && (day.activities[i].id != activityId || day.activities[i].todos.None? ==> r.activities[i] == day.activities[i])
      && (day.activities[i].id == activityId && day.activities[i].todos.Some? ==>
            r.activities[i].todos == Some(ToggledTodos(day.activities[i].todos.value, todoId)))
  {
    day.(activities := seq(|day.activities|, i requires 0 <= i < |day.activities| =>
      var act := day.activities[i];
      if act.id != activityId then act
      else act.(todos := if act.todos.Some? then Some(ToggledTodos(act.todos.value, todoId)) else None)))
  }

  /** Toggling the same to-do twice gives the day back. */
  lemma ToggleTwice(day: Day, activityId: string, todoId: string)
    ensures ToggleTodo(ToggleTodo(day, activityId, todoId), activityId, todoId) == day
  {
    var once := ToggleTodo(day, activityId, todoId);
    var twice := ToggleTodo(once, activityId, todoId);
    forall i | 0 <= i < |day.activities| ensures twice.activities[i] == day.activities[i] {
      var act := day.activities[i];
      if act.id == activityId && act.todos.Some? {
        var ts := act.todos.value;
        assert ToggledTodos(ToggledTodos(ts, todoId), todoId) == ts;
      }
    }
  }

  /** `handleDeleteItem`: with the deletion confirmed, the day without the activity `itemId`. */
  function DeleteItem(day: Day, itemId: string, confirmed: bool): (r: Option<Day>)
    ensures confirmed <==> r.Some?
    ensures r.Some? ==> r.value.(activities := day.activities) == day
  {
    if confirmed then Some(day.(activities := Without(day.activities, ActivityId, itemId))) else None
  }

  /** A confirmed deletion drops exactly the activities with that id and keeps the others in order. */
  lemma DeleteItemSpec(day: Day, itemId: string)
    ensures var r := DeleteItem(day, itemId, true).value.activities;
      && (forall i :: 0 <= i < |r| ==> r[i].id != itemId)
      && (forall a: Activity :: a.id != itemId ==> multiset(r)[a] == multiset(day.activities)[a])
      && IsSubsequence(r, day.activities)
  {
    WithoutSpec(day.activities, ActivityId, itemId);
  }

  /** A form saved unchanged for a new item keeps its empty time and title instead of the defaults. */
  lemma BlankFormSavesEmpty(newId: string)
    ensures NewItem(BlankForm, newId).time == "" && NewItem(BlankForm, newId).title == ""
    ensures NewItem(BlankForm, newId).location == Some("")
  {
  }

  /** The day-header editor's fields. */
  datatype HeaderForm = HeaderForm(location: string, subtitle: string)

  /** The day view's own state: the activity form's mode and the header editor. */
  class DayView {
    var editingItem: Option<Activity>
    var isModalOpen: bool
    var newItemMode: bool
    var isEditingHeader: bool
    var headerForm: HeaderForm

    constructor ()
      ensures editingItem.None? && !isModalOpen && !newItemMode && !isEditingHeader
      ensures headerForm == HeaderForm("", "")
    {
      editingItem := None;
      isModalOpen := false;
      newItemMode := false;
      isEditingHeader := false;
      headerForm := HeaderForm("", "");
    }

    /** `openAddModal`. */
    method OpenAddModal()
      modifies this
      ensures newItemMode && editingItem.None? && isModalOpen
      ensures isEditingHeader == old(isEditingHeader) && headerForm == old(headerForm)
    {
      newItemMode := true;
      editingItem := None;
      isModalOpen := true;
    }

    /** `openEditModal`. */
    method OpenEditModal(item: Activity)
      modifies this
      ensures !newItemMode && editingItem == Some(item) && isModalOpen
      ensures isEditingHeader == old(isEditingHeader) && headerForm == old(headerForm)
    {
      newItemMode := false;
      editingItem := Some(item);
      isModalOpen := true;
    }

    /**
     * `handleSaveItem`: a new activity goes at the end; an edit overlays the
     * form on the activity being edited. Either way the form closes.
     */
    method SaveItem(day: Day, patch: ItemPatch, newId: string) returns (update: Option<Day>)
      modifies this
      ensures old(newItemMode) ==> update == Some(day.(activities := day.activities + [NewItem(patch, newId)]))
      ensures !old(newItemMode) && old(editingItem).Some? ==>
        update == Some(day.(activities := UpdateWhere(day.activities, ActivityId, old(editingItem).value.id, a => Overlay(a, patch))))
      ensures !old(newItemMode) && old(editingItem).None? ==> update.None?
      ensures !isModalOpen && !newItemMode && editingItem.None?
      ensures isEditingHeader == old(isEditingHeader) && headerForm == old(headerForm)
    {
      if newItemMode {
        var newItem := NewItem(patch, newId);
        update := Some(day.(activities := day.activities + [newItem]));
      } else if editingItem.Some? {
        var editedId := editingItem.value.id;
        update := Some(day.(activities := UpdateWhere(day.activities, ActivityId, editedId, a => Overlay(a, patch))));
      } else {
        update := None;
      }
      isModalOpen := false;
      newItemMode := false;
      editingItem := None;
    }

    /** `startHeaderEdit`: the editor opens on the day's place and subtitle, with a stock subtitle when it has none. */
    method StartHeaderEdit(day: Day)
      modifies this
      ensures headerForm == HeaderForm(day.location, if HasText(day.subtitle) then day.subtitle.value else "Japan Trip 2026")
      ensures isEditingHeader
      ensures editingItem == old(editingItem) && isModalOpen == old(isModalOpen) && newItemMode == old(newItemMode)
    {
      headerForm := HeaderForm(day.location, if HasText(day.subtitle) then day.subtitle.value else "Japan Trip 2026");
      isEditingHeader := true;
    }

    /** `saveHeaderEdit`: only the day's place and subtitle change. */
    method SaveHeaderEdit(day: Day) returns (update: Day)
      modifies this
      ensures update == day.(location := old(headerForm).location, subtitle := Some(old(headerForm).subtitle))
      ensures !isEditingHeader && headerForm == old(headerForm)
      ensures editingItem == old(editingItem) && isModalOpen == old(isModalOpen) && newItemMode == old(newItemMode)
    {
      update := day.(location := headerForm.location, subtitle := Some(headerForm.subtitle));
      isEditingHeader := false;
    }
  }

  /** A save in edit mode overlays the form on the edited activity alone and keeps the list's order. */
  lemma EditTouchesOne(acts: seq<Activity>, editedId: string, patch: ItemPatch)
    ensures var r := UpdateWhere(acts, ActivityId, editedId, a => Overlay(a, patch));
      && |r| == |acts|
      && (forall i :: 0 <= i < |r| && acts[i].id != editedId ==> r[i] == acts[i])
      && (forall i :: 0 <= i < |r| && acts[i].id == editedId ==> r[i] == Overlay(acts[i], patch))
  {
    var r := UpdateWhere(acts, ActivityId, editedId, a => Overlay(a, patch));
    forall i | 0 <= i < |r| ensures r[i] == if acts[i].id == editedId then Overlay(acts[i], patch) else acts[i] {
      assert ActivityId(acts[i]) == acts[i].id;
    }
  }

  /** Saving an unedited form of an activity gives the activity back, its to-do list made explicit. */
  lemma FormOfRoundTrip(a: Activity)
    ensures Overlay(a, FormOf(a)) == a.(todos := Some(a.todos.GetOr([])))
  {
  }
}
