/** Task rows and the new lists the task table builds from its current list. */
module Tasks {
  import opened Wrappers

  /** A row of the `tasks` table as the client holds it; priority and deadline
      may be null in the store. */
  datatype Task = Task(id: int, name: string, status: string, priority: Option<string>, deadline: Option<string>)

  /** The columns a row edits through `updateTaskField`. */
  datatype Field = NameField | StatusField | PriorityField | DeadlineField

  const Completed: string := "Completed"
  const ToDo: string := "To Do"

  /** The value of one column of a row. */
  function GetField(t: Task, f: Field): Option<string>
  {
    match f
    case NameField => Some(t.name)
    case StatusField => Some(t.status)
    case PriorityField => t.priority
    case DeadlineField => t.deadline
  }

  /** `after` is `before` with column `f` set to `v` and nothing else changed. */
  ghost predicate Patched(before: Task, after: Task, f: Field, v: string)
  {
    && after.id == before.id
    && GetField(after, f) == Some(v)
    && forall g :: g != f ==> GetField(after, g) == GetField(before, g)
  }

  /** The row with one column overwritten by a spread copy. */
  function SetField(t: Task, f: Field, v: string): (r: Task)
    ensures Patched(t, r, f, v)
  {
    match f
    case NameField => t.(name := v)
    case StatusField => t.(status := v)
    case PriorityField => t.(priority := Some(v))
    case DeadlineField => t.(deadline := Some(v))
  }

  /** A patch determines the patched row. */
  lemma PatchedUnique(t: Task, a: Task, b: Task, f: Field, v: string)
    requires Patched(t, a, f, v) && Patched(t, b, f, v)
    ensures a == b
  {
    assert GetField(a, NameField) == GetField(b, NameField);
    assert GetField(a, StatusField) == GetField(b, StatusField);
    assert GetField(a, PriorityField) == GetField(b, PriorityField);
    assert GetField(a, DeadlineField) == GetField(b, DeadlineField);
  }

  /** The status the done button of a row writes: To Do for a completed row,
      Completed for any other. */
  function ToggledStatus(status: string): (r: string)
    ensures r == Completed <==> status != Completed
    ensures r == ToDo || r == Completed
  {
    if status == Completed then ToDo else Completed
  }

  /** On the two statuses the application writes, toggling twice is the identity. */
  lemma ToggleTwice(status: string)
    requires status == Completed || status == ToDo
    ensures ToggledStatus(ToggledStatus(status)) == status
  {
  }

  predicate HasId(tasks: seq<Task>, id: int)
  {
    exists i :: 0 <= i < |tasks| && tasks[i].id == id
  }

  /** The list `updateTaskField` builds: every row carrying `id` patched, the
      others as they were. */
  function UpdateById(tasks: seq<Task>, id: int, f: Field, v: string): (r: seq<Task>)
    ensures |r| == |tasks|
    ensures forall i :: 0 <= i < |r| ==> r[i].id == tasks[i].id
    ensures forall i :: 0 <= i < |r| && tasks[i].id == id ==> Patched(tasks[i], r[i], f, v)
    ensures forall i :: 0 <= i < |r| && tasks[i].id != id ==> r[i] == tasks[i]
  {
    if tasks == [] then []
    else [if tasks[0].id == id then SetField(tasks[0], f, v) else tasks[0]] + UpdateById(tasks[1..], id, f, v)
  }

  /** Writing the same value twice is the same as writing it once. */
  lemma UpdateIdempotent(tasks: seq<Task>, id: int, f: Field, v: string)
    ensures UpdateById(UpdateById(tasks, id, f, v), id, f, v) == UpdateById(tasks, id, f, v)
  {
    var once := UpdateById(tasks, id, f, v);
    var twice := UpdateById(once, id, f, v);
    forall i | 0 <= i < |tasks|
      ensures twice[i] == once[i]
    {
      if tasks[i].id == id {
        assert Patched(tasks[i], twice[i], f, v);
        PatchedUnique(tasks[i], twice[i], once[i], f, v);
      }
    }
  }

  /** The list `deleteTask` builds: the rows that do not carry `id`. */
  function WithoutId(tasks: seq<Task>, id: int): (r: seq<Task>)
    ensures |r| <= |tasks|
    ensures forall t :: t in r <==> t in tasks && t.id != id
  {
    if tasks == [] then []
    else (if tasks[0].id == id then [] else [tasks[0]]) + WithoutId(tasks[1..], id)
  }

  /** Filtering a concatenation filters each part: together with the rule for a
      single task this says that deleting keeps the other tasks in their
      original relative order. */
  lemma {:induction false} WithoutIdConcat(a: seq<Task>, b: seq<Task>, id: int)
    ensures WithoutId(a + b, id) == WithoutId(a, id) + WithoutId(b, id)
  {
    if a == [] {
      assert a + b == b;
    } else {
      assert (a + b)[1..] == a[1..] + b;
      WithoutIdConcat(a[1..], b, id);
    }
  }

  /** Deleting an id no task carries changes nothing. */
  lemma {:induction false} WithoutIdAbsent(tasks: seq<Task>, id: int)
    requires !HasId(tasks, id)
    ensures WithoutId(tasks, id) == tasks
  {
    if tasks != [] {
      assert tasks[0].id != id;
      assert !HasId(tasks[1..], id) by {
        forall i | 0 <= i < |tasks[1..]|
          ensures tasks[1..][i].id != id
        {
          assert tasks[1..][i] == tasks[i + 1];
        }
      }
      WithoutIdAbsent(tasks[1..], id);
    }
  }

  /** Deleting the same id a second time changes nothing more. */
  lemma DeleteTwice(tasks: seq<Task>, id: int)
    ensures !HasId(WithoutId(tasks, id), id)
    ensures WithoutId(WithoutId(tasks, id), id) == WithoutId(tasks, id)
  {
    var r := WithoutId(tasks, id);
    assert !HasId(r, id) by {
      forall i | 0 <= i < |r|
        ensures r[i].id != id
      {
        assert r[i] in r;
      }
    }
    WithoutIdAbsent(r, id);
  }

  /** The position `findIndex` gives for `id`: the first row carrying it, or -1. */
  function FindIndex(tasks: seq<Task>, id: int): (i: int)
    ensures -1 <= i < |tasks|
    ensures i == -1 <==> !HasId(tasks, id)
    ensures 0 <= i ==> tasks[i].id == id && !HasId(tasks[..i], id)
  {
    if tasks == [] then -1
    else if tasks[0].id == id then 0
    else
      var j := FindIndex(tasks[1..], id);
      if j == -1 then
        assert forall i :: 1 <= i < |tasks| ==> tasks[i] == tasks[1..][i - 1];
        -1
      else
        assert tasks[..j + 1] == [tasks[0]] + tasks[1..][..j];
        j + 1
  }

  function RemoveAt<T>(s: seq<T>, i: nat): seq<T>
    requires i < |s|
  {
    s[..i] + s[i + 1..]
  }

  function InsertAt<T>(s: seq<T>, i: nat, x: T): seq<T>
    requires i <= |s|
  {
    s[..i] + [x] + s[i..]
  }

  lemma RemoveInserted<T>(s: seq<T>, i: nat, x: T)
    requires i <= |s|
    ensures RemoveAt(InsertAt(s, i, x), i) == s
  {
    var u := InsertAt(s, i, x);
    assert u[..i] == s[..i];
    assert u[i + 1..] == s[i..];
  }

  lemma InsertRemoved<T>(s: seq<T>, i: nat)
    requires i < |s|
    ensures InsertAt(RemoveAt(s, i), i, s[i]) == s
  {
    var u := RemoveAt(s, i);
    assert u[..i] == s[..i];
    assert u[i..] == s[i + 1..];
  }

  /** Inserting adds exactly one occurrence, wherever it goes. */
  lemma InsertRemovedCount<T>(s: seq<T>, i: nat, x: T)
    requires i <= |s|
    ensures multiset(InsertAt(s, i, x)) == multiset(s) + multiset{x}
  {
    assert s == s[..i] + s[i..];
    assert multiset(s) == multiset(s[..i]) + multiset(s[i..]);
  }

  /** `arrayMove(items, from, to)` of @dnd-kit/sortable on in-range positions:
      the element at `from` is taken out and put back in at `to`. The result is a
      permutation in which the moved element lands at `to` and all the others
      keep their relative order. */
  function ArrayMove<T>(s: seq<T>, from: nat, to: nat): (r: seq<T>)
    requires from < |s| && to < |s|
    ensures |r| == |s|
    ensures r[to] == s[from]
    ensures RemoveAt(r, to) == RemoveAt(s, from)
    ensures multiset(r) == multiset(s)
  {
    RemoveInserted(RemoveAt(s, from), to, s[from]);
    InsertRemovedCount(RemoveAt(s, from), to, s[from]);
    InsertRemovedCount(RemoveAt(s, from), from, s[from]);
    InsertRemoved(s, from);
    InsertAt(RemoveAt(s, from), to, s[from])
  }

  /** Dragging back undoes a drag. */
  lemma ArrayMoveUndo<T>(s: seq<T>, from: nat, to: nat)
    requires from < |s| && to < |s|
    ensures ArrayMove(ArrayMove(s, from, to), to, from) == s
  {
    InsertRemoved(s, from);
  }

  /** Moving the first element to the last position rotates the list by one. */
  lemma ArrayMoveFirstToLast<T>(s: seq<T>)
    requires |s| > 0
    ensures ArrayMove(s, 0, |s| - 1) == s[1..] + [s[0]]
  {
    var u := RemoveAt(s, 0);
    assert u == s[1..];
    assert InsertAt(u, |s| - 1, s[0]) == u + [s[0]];
  }

  /** The list `handleDragEnd` leaves after task `activeId` is dropped on task
      `overId`. */
  function DragEnd(tasks: seq<Task>, activeId: int, overId: int): (r: seq<Task>)
    requires activeId != overId ==> HasId(tasks, activeId) && HasId(tasks, overId)
    ensures |r| == |tasks| && multiset(r) == multiset(tasks)
    ensures activeId == overId ==> r == tasks
    ensures activeId != overId ==>
      var oldIndex, newIndex := FindIndex(tasks, activeId), FindIndex(tasks, overId);
      && 0 <= oldIndex && 0 <= newIndex
      && r[newIndex] == tasks[oldIndex]
      && r[newIndex].id == activeId
      && RemoveAt(r, newIndex) == RemoveAt(tasks, oldIndex)
  {
    if activeId == overId then tasks
    else ArrayMove(tasks, FindIndex(tasks, activeId), FindIndex(tasks, overId))
  }
}
