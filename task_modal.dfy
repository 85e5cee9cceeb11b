/** The task form: three fields loaded when the dialog opens, two clamped number inputs, and
    the save handler, which hands over an edited task or a new one, or nothing when the title
    is blank. */
module TaskModal {
  import opened Types
  import Js

  /** The estimate input, `Math.max(1, Math.min(50, parseInt(value) || 1))`, given what
      `parseInt` returned (`None` for NaN). */
  function EstimatedInput(parsed: Option<int>): (r: int)
    ensures 1 <= r <= 50
    ensures parsed.None? || parsed == Some(0) ==> r == 1
    ensures parsed.Some? && 1 <= parsed.value <= 50 ==> r == parsed.value
    ensures parsed.Some? && parsed.value > 50 ==> r == 50
    ensures parsed.Some? && parsed.value < 0 ==> r == 1
  {
    Js.Max(1, Js.Min(50, Js.OrDefault(parsed, 1)))
  }

  /** The actual-count input, `Math.max(0, parseInt(value) || 0)`. */
  function ActualInput(parsed: Option<int>): (r: int)
    ensures r >= 0
    ensures parsed.Some? && parsed.value >= 0 ==> r == parsed.value
    ensures parsed.None? || parsed.value <= 0 ==> r == 0
  {
    Js.Max(0, Js.OrDefault(parsed, 0))
  }

  /** An input already in range is kept as typed: each clamp is the identity on its range. */
  lemma InputsKeepValuesInRange(e: int, a: int)
    requires 1 <= e <= 50 && a >= 0
    ensures EstimatedInput(Some(e)) == e && ActualInput(Some(a)) == a
    ensures EstimatedInput(Some(EstimatedInput(Some(e)))) == EstimatedInput(Some(e))
  {
  }

  /** The two shapes `onSave` is called with: the edited task, or the title and estimate of a
      task to create. */
  datatype SavePayload = EditPayload(task: Task) | CreatePayload(newTask: NewTask)

  /** The form's three fields. */
  datatype FormState = FormState(title: string, estimatedPomodoros: int, actualPomodoros: int)

  /** The fields after the dialog opens: the task's own values when editing, `('', 1, 0)` for a
      new task. */
  function OpenedWith(task: Option<Task>): (f: FormState)
    ensures task.None? ==> f == FormState("", 1, 0)
    ensures task.Some? ==> (f.title == task.value.title &&
      f.estimatedPomodoros == task.value.estimatedPomodoros && f.actualPomodoros == task.value.actualPomodoros)
  {
    match task
    case None => FormState("", 1, 0)
    case Some(t) => FormState(t.title, t.estimatedPomodoros, t.actualPomodoros)
  }

  /** `handleSave`: nothing when the trimmed title is empty; otherwise the edited task, with its
      id, creation time and completion flag kept, or a new task's title and estimate. */
  function Saved(f: FormState, task: Option<Task>): (r: Option<SavePayload>)
    ensures r.None? <==> Js.Trim(f.title) == ""
    ensures r.Some? && task.Some? ==> (r.value.EditPayload? &&
      r.value.task.id == task.value.id && r.value.task.createdAt == task.value.createdAt &&
      r.value.task.completed == task.value.completed &&
      r.value.task.title == Js.Trim(f.title) &&
      r.value.task.estimatedPomodoros == f.estimatedPomodoros &&
      r.value.task.actualPomodoros == f.actualPomodoros)
    ensures r.Some? && task.None? ==> r == Some(CreatePayload(NewTask(Js.Trim(f.title), f.estimatedPomodoros)))
    ensures r.Some? ==> (Js.Trim(f.title) != "" &&
      (r.value.EditPayload? ==> r.value.task.title != "") &&
      (r.value.CreatePayload? ==> r.value.newTask.title != ""))
  {
    var trimmed := Js.Trim(f.title);
    if trimmed == "" then None
    else match task
      case Some(t) => Some(EditPayload(t.(title := trimmed, estimatedPomodoros := f.estimatedPomodoros,
                                           actualPomodoros := f.actualPomodoros)))
      case None => Some(CreatePayload(NewTask(trimmed, f.estimatedPomodoros)))
  }

  /** Opening a task whose title has no surrounding white space and saving straight away hands
      the task back unchanged. */
  lemma OpenThenSaveIsIdentity(t: Task)
    requires t.title != "" && Js.Trim(t.title) == t.title
    ensures Saved(OpenedWith(Some(t)), Some(t)) == Some(EditPayload(t))
  {
    var f := OpenedWith(Some(t));
    assert f.title == t.title;
    assert t.(title := t.title, estimatedPomodoros := t.estimatedPomodoros, actualPomodoros := t.actualPomodoros) == t;
  }

  /** Saving depends on the title only through its trimmed form: surrounding white space is
      never handed over. */
  lemma SaveTrimsTitle(f: FormState, task: Option<Task>)
    ensures Saved(f, task) == Saved(f.(title := Js.Trim(f.title)), task)
  {
    var g := f.(title := Js.Trim(f.title));
    Js.TrimIdempotent(f.title);
    assert Js.Trim(g.title) == Js.Trim(f.title);
  }

  /** The state of the dialog's three `useState` hooks. */
  class TaskForm {
    var title: string
    var estimatedPomodoros: int
    var actualPomodoros: int

    function Form(): FormState
      reads this
    {
      FormState(title, estimatedPomodoros, actualPomodoros)
    }

    /** The initial values of the hooks. */
    constructor()
      ensures Form() == FormState("", 1, 0)
    {
      title := "";
      estimatedPomodoros := 1;
      actualPomodoros := 0;
    }

    /** The effect that runs when the dialog opens, for the task being edited or none. */
    method Open(task: Option<Task>)
      modifies this
      ensures Form() == OpenedWith(task)
    {
      if task.Some? {
        title := task.value.title;
        estimatedPomodoros := task.value.estimatedPomodoros;
        actualPomodoros := task.value.actualPomodoros;
      } else {
        title := "";
        estimatedPomodoros := 1;
        actualPomodoros := 0;
      }
    }

    method SetTitle(text: string)
      modifies this
      ensures Form() == old(Form()).(title := text)
    {
      title := text;
    }

    method InputEstimated(parsed: Option<int>)
      modifies this
      ensures Form() == old(Form()).(estimatedPomodoros := EstimatedInput(parsed))
      ensures 1 <= estimatedPomodoros <= 50
    {
      estimatedPomodoros := Js.Max(1, Js.Min(50, Js.OrDefault(parsed, 1)));
    }

    method InputActual(parsed: Option<int>)
      modifies this
      ensures Form() == old(Form()).(actualPomodoros := ActualInput(parsed))
      ensures actualPomodoros >= 0
    {
      actualPomodoros := Js.Max(0, Js.OrDefault(parsed, 0));
    }

    /** `handleSave`: what `onSave` is called with, `None` when it is not called. */
    method Save(task: Option<Task>) returns (payload: Option<SavePayload>)
      ensures payload == Saved(Form(), task)
      ensures payload.None? <==> Js.Trim(title) == ""
    {
      var trimmed := Js.Trim(title);
      if trimmed == "" {
        return None;
      }
      if task.Some? {
        payload := Some(EditPayload(task.value.(title := trimmed, estimatedPomodoros := estimatedPomodoros,
                                                actualPomodoros := actualPomodoros)));
      } else {
        payload := Some(CreatePayload(NewTask(trimmed, estimatedPomodoros)));
      }
    }
  }
}
