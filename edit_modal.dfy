/**
 * The activity form of components/EditModal.tsx: the form object it edits
 * (`Partial<ItineraryItem>`, here an `ItemPatch` whose properties are absent
 * or present with a value) and the pending to-do text.
 */
module EditModal {

  import opened Wrappers
  import opened Text
  import opened TripTypes
  import opened Lists

  /** `Partial<ItineraryItem>`: `None` for a property the object does not have. */
  datatype ItemPatch = ItemPatch(
    id: Option<string>,
    time: Option<string>,
    title: Option<string>,
    location: Option<string>,
    description: Option<string>,
    kind: Option<ActivityType>,
    googleMapLink: Option<string>,
    todos: Option<seq<TodoItem>>,
    notes: Option<string>,
    weatherInfo: Option<WeatherData>)

  const NoChange: ItemPatch := ItemPatch(None, None, None, None, None, None, None, None, None, None)

  /** The form for a new activity: empty texts, type `ACTIVITY`, no to-dos. */
  const BlankForm: ItemPatch :=
    ItemPatch(None, Some(""), Some(""), Some(""), Some(""), Some(ACTIVITY), Some(""), Some([]), Some(""), None)

  /** The form for an existing activity: its own properties, with a to-do list even when it had none. */
  function FormOf(a: Activity): (r: ItemPatch)
    ensures r.todos == Some(if a.todos.Some? then a.todos.value else [])
  {
    ItemPatch(Some(a.id), Some(a.time), Some(a.title), a.location, a.description, Some(a.kind),
      a.googleMapLink, Some(a.todos.GetOr([])), a.notes, a.weatherInfo)
  }

  /** The activity form's state. */
  class ActivityForm {
    var formData: ItemPatch
    var newTodoText: string

    constructor ()
      ensures formData == BlankForm && newTodoText == ""
    {
      formData := BlankForm;
      newTodoText := "";
    }

    /** The reset effect: the edited activity's form, or the blank form. */
    method Reset(initialData: Option<Activity>)
      modifies this
      ensures formData == if initialData.Some? then FormOf(initialData.value) else BlankForm
      ensures newTodoText == old(newTodoText)
    {
      if initialData.Some? {
        formData := FormOf(initialData.value);
      } else {
        formData := BlankForm;
      }
    }

    /** `handleAddTodo`: a blank text adds nothing; otherwise one open to-do with the untrimmed text goes at the end. */
    method AddTodo(newId: string)
      modifies this
      ensures Trim(old(newTodoText)) == "" ==> formData == old(formData) && newTodoText == old(newTodoText)
      ensures Trim(old(newTodoText)) != "" ==>
        && formData == old(formData).(todos := Some(old(formData).todos.GetOr([]) + [TodoItem(newId, old(newTodoText), false)]))
        && newTodoText == ""
    {
      if Trim(newTodoText) == "" {
        return;
      }
      var newTodo := TodoItem(newId, newTodoText, false);
      formData := formData.(todos := Some(formData.todos.GetOr([]) + [newTodo]));
      newTodoText := "";
    }

    /** `handleRemoveTodo`. */
    method RemoveTodo(id: string)
      modifies this
      ensures formData == old(formData).(todos := if old(formData).todos.Some? then Some(Without(old(formData).todos.value, TodoId, id)) else None)
      ensures newTodoText == old(newTodoText)
    {
      if formData.todos.Some? {
        formData := formData.(todos := Some(Without(formData.todos.value, TodoId, id)));
      }
    }

    /** `handleUpdateTodoText`. */
    method UpdateTodoText(id: string, text: string)
      modifies this
      ensures formData == old(formData).(todos := if old(formData).todos.Some? then Some(Retexted(old(formData).todos.value, id, text)) else None)
      ensures newTodoText == old(newTodoText)
    {
      if formData.todos.Some? {
        formData := formData.(todos := Some(Retexted(formData.todos.value, id, text)));
      }
    }

    /** `handleTimeChange` and the time field: only the time changes. */
    method TimeChange(value: string)
      modifies this
      ensures formData == old(formData).(time := Some(value)) && newTodoText == old(newTodoText)
    {
      formData := formData.(time := Some(value));
    }
  }

  /** The to-dos with the text of `id` replaced. */
  function Retexted(todos: seq<TodoItem>, id: string, text: string): (r: seq<TodoItem>)
    ensures |r| == |todos|
    ensures forall i :: 0 <= i < |r| ==> r[i].id == todos[i].id && r[i].completed == todos[i].completed
    ensures forall i :: 0 <= i < |r| ==> r[i].text == (if todos[i].id == id then text else todos[i].text)
  {
    seq(|todos|, i requires 0 <= i < |todos| => if todos[i].id == id then todos[i].(text := text) else todos[i])
  }

  /** Removing a freshly added to-do gives the list back. */
  lemma AddThenRemove(todos: seq<TodoItem>, newId: string, text: string)
    requires forall i :: 0 <= i < |todos| ==> todos[i].id != newId
    ensures Without(todos + [TodoItem(newId, text, false)], TodoId, newId) == todos
  {
    WithoutAbsent(todos, TodoId, newId);
    WithoutAppend(todos, [TodoItem(newId, text, false)], TodoId, newId);
    assert Without([TodoItem(newId, text, false)], TodoId, newId) == [];
  }
}
