/** The component state of the task table and the handlers that change it.
    Every remote call becomes a parameter: whether the update reported an error,
    the row the insert returned, the data the select returned. */
module Board {
  import opened Wrappers
  import opened Tasks
  import opened Priorities

  /** The row `addTask` asks the store to insert. */
  datatype NewRow = NewRow(name: string, status: string, priority: string, deadline: string)

  class TaskBoard {
    /** The rows shown, in display order. */
    var tasks: seq<Task>
    /** True until the first fetch has completed. */
    var loading: bool

    /** `useState([])` and `useState(true)`. */
    constructor ()
      ensures tasks == [] && loading
    {
      tasks := [];
      loading := true;
    }

    /** `fetchTasks`: `data` is what the select ordered by id returned, None when
        it returned no data. Loading ends either way. */
    method FetchTasks(data: Option<seq<Task>>)
      modifies this
      ensures tasks == (if data.Some? then data.value else old(tasks))
      ensures !loading
    {
      if data.Some? {
        tasks := data.value;
      }
      loading := false;
    }

    /** `updateTaskField(id, field, value)`: the local list is patched only when
        the remote update reports no error. */
    method UpdateTaskField(id: int, field: Field, value: string, error: bool)
      modifies this`tasks
      ensures error ==> tasks == old(tasks)
      ensures !error ==> tasks == UpdateById(old(tasks), id, field, value)
    {
      if !error {
        tasks := UpdateById(tasks, id, field, value);
      }
    }

    /** `cyclePriority(id, currentPriority)`: writes the next priority of the cycle. */
    method CyclePriority(id: int, currentPriority: Option<string>, error: bool)
      modifies this`tasks
      ensures error ==> tasks == old(tasks)
      ensures !error ==> tasks == UpdateById(old(tasks), id, PriorityField, NextPriority(currentPriority))
    {
      UpdateTaskField(id, PriorityField, NextPriority(currentPriority), error);
    }

    /** The done button of row `t`. */
    method ToggleDone(t: Task, error: bool)
      modifies this`tasks
      ensures error ==> tasks == old(tasks)
      ensures !error ==> tasks == UpdateById(old(tasks), t.id, StatusField, ToggledStatus(t.status))
    {
      UpdateTaskField(t.id, StatusField, ToggledStatus(t.status), error);
    }

    /** `addTask`: `name` is what the prompt returned, `today` the date string used
        as the default deadline, `inserted` the row the insert returned. A falsy
        name issues no insert; otherwise the insert is returned and the row the
        store sends back is appended. */
    method AddTask(name: Option<string>, today: string, inserted: Option<Task>) returns (request: Option<NewRow>)
      modifies this`tasks
      ensures Falsy(name) ==> request == None && tasks == old(tasks)
      ensures !Falsy(name) ==> request == Some(NewRow(name.value, ToDo, Medium, today))
      ensures !Falsy(name) && inserted.Some? ==> tasks == old(tasks) + [inserted.value]
      ensures !Falsy(name) && inserted.None? ==> tasks == old(tasks)
    {
      if Falsy(name) {
        return None;
      }
      request := Some(NewRow(name.value, ToDo, Medium, today));
      if inserted.Some? {
        tasks := tasks + [inserted.value];
      }
    }

    /** `deleteTask(id)`: the row is dropped locally whatever the store answers. */
    method DeleteTask(id: int)
      modifies this`tasks
      ensures tasks == WithoutId(old(tasks), id)
    {
      tasks := WithoutId(tasks, id);
    }

    /** `handleDragEnd`: drop of the row `activeId` on the row `overId`. */
    method HandleDragEnd(activeId: int, overId: int)
      requires activeId != overId ==> HasId(tasks, activeId) && HasId(tasks, overId)
      modifies this`tasks
      ensures tasks == DragEnd(old(tasks), activeId, overId)
    {
      if activeId != overId {
        var oldIndex := FindIndex(tasks, activeId);
        var newIndex := FindIndex(tasks, overId);
        tasks := ArrayMove(tasks, oldIndex, newIndex);
      }
    }
  }
}
