/** The task panel: a list of tasks that the user can tick off and add to. A
    toggle is shown at once and undone when the server rejects it; a new task is
    shown at once under a temporary id and replaced by the server's task when
    that arrives. */
module TaskManager {
  import opened Wrappers
  import Text
  import Lists
  import Session

  datatype Task = Task(id: string, title: string, assigneeName: string, dueDate: string,
                       priority: string, completed: bool, source: string, createdAt: int)

  /** The body of `POST /tasks`. */
  datatype TaskRequest = TaskRequest(title: string, assigneeName: string, dueDate: string,
                                     priority: string, source: string)

  /** `tasks.find(t => t.id === id)`: the first task with that id. */
  function FindById(ts: seq<Task>, id: string): (r: Option<Task>)
    ensures r.None? <==> forall i :: 0 <= i < |ts| ==> ts[i].id != id
    ensures r.Some? ==> exists i :: 0 <= i < |ts| && ts[i] == r.value && r.value.id == id &&
                                    forall j :: 0 <= j < i ==> ts[j].id != id
  {
    if ts == [] then None
    else if ts[0].id == id then Some(ts[0])
    else
      var r := FindById(ts[1..], id);
      assert r.Some? ==> exists i :: 1 <= i < |ts| && ts[i] == r.value && r.value.id == id &&
                                    forall j :: 0 <= j < i ==> ts[j].id != id by {
        if r.Some? {
          var k :| 0 <= k < |ts| - 1 && ts[1..][k] == r.value && r.value.id == id &&
                   forall j :: 0 <= j < k ==> ts[1..][j].id != id;
          assert ts[k + 1] == r.value;
          assert forall j :: 1 <= j < k + 1 ==> ts[j].id != id by {
            forall j | 1 <= j < k + 1 ensures ts[j].id != id {
              assert ts[j] == ts[1..][j - 1];
            }
          }
        }
      }
      r
  }

  /** `tasks.map(t => t.id === id ? { ...t, completed: c } : t)`. */
  function SetCompleted(ts: seq<Task>, id: string, c: bool): (r: seq<Task>)
    ensures |r| == |ts|
    ensures forall i :: 0 <= i < |ts| && ts[i].id == id ==> r[i] == ts[i].(completed := c)
    ensures forall i :: 0 <= i < |ts| && ts[i].id != id ==> r[i] == ts[i]
  {
    seq(|ts|, i requires 0 <= i < |ts| => if ts[i].id == id then ts[i].(completed := c) else ts[i])
  }

  /** All tasks with id `id` have the flag `c` (true as soon as ids are unique). */
  predicate FlagIs(ts: seq<Task>, id: string, c: bool) {
    forall i :: 0 <= i < |ts| && ts[i].id == id ==> ts[i].completed == c
  }

  /** Setting tasks to the flag they already have changes nothing, so the revert
      after a failed update gives back the list as it was before the toggle. */
  lemma RevertRestores(ts: seq<Task>, id: string, c: bool)
    requires FlagIs(ts, id, c)
    ensures SetCompleted(ts, id, c) == ts
  {
    var r := SetCompleted(ts, id, c);
    forall i | 0 <= i < |ts| ensures r[i] == ts[i] {
      if ts[i].id == id {
        assert ts[i].(completed := c) == ts[i];
      }
    }
  }

  /** Toggling and then setting the old flag back is no change. */
  lemma ToggleThenRevert(ts: seq<Task>, id: string, c: bool)
    requires FlagIs(ts, id, c)
    ensures SetCompleted(SetCompleted(ts, id, !c), id, c) == ts
  {
    var r := SetCompleted(SetCompleted(ts, id, !c), id, c);
    forall i | 0 <= i < |ts| ensures r[i] == ts[i] {
      if ts[i].id == id {
        assert ts[i].(completed := c) == ts[i];
      }
    }
  }

  /** With unique ids the task found is the only one carrying the id. */
  lemma UniqueFlag(ts: seq<Task>, id: string)
    requires forall i, j :: 0 <= i < j < |ts| ==> ts[i].id != ts[j].id
    requires FindById(ts, id).Some?
    ensures FlagIs(ts, id, FindById(ts, id).value.completed)
  {
  }

  /** Two tasks sharing an id but not the flag: a toggle sets both, and the revert
      leaves both at the first task's old flag, so the list is not restored. */
  lemma RevertNeedsOneFlag()
    ensures var a := Task("x", "a", "", "", "medium", false, "manual", 0);
      var b := a.(completed := true);
      SetCompleted([a, b], "x", FindById([a, b], "x").value.completed) != [a, b]
  {
    var a := Task("x", "a", "", "", "medium", false, "manual", 0);
    var b := a.(completed := true);
    assert SetCompleted([a, b], "x", false)[1] == a;
  }

  predicate IsDone(t: Task) { t.completed }
  predicate IsOpen(t: Task) { !t.completed }

  /** `activeTasks` and `completedTasks` split the list: together they hold every
      task exactly once. */
  lemma ActiveCompletedPartition(ts: seq<Task>)
    ensures |Lists.Filter(ts, IsOpen)| + |Lists.Filter(ts, IsDone)| == |ts|
    ensures multiset(Lists.Filter(ts, IsOpen)) + multiset(Lists.Filter(ts, IsDone)) == multiset(ts)
    ensures forall t :: t in Lists.Filter(ts, IsOpen) ==> !t.completed
    ensures forall t :: t in Lists.Filter(ts, IsDone) ==> t.completed
  {
    Lists.FilterPartition(ts, IsOpen, IsDone);
  }

  /** The optimistic task of `addTask`. */
  function NewTask(title: string, tempId: string, assignee: string, dueDate: string, now: int): (r: Task)
    ensures r.id == tempId && r.title == title && r.assigneeName == assignee && r.dueDate == dueDate
    ensures !r.completed && r.priority == "medium" && r.source == "manual" && r.createdAt == now
  {
    Task(tempId, title, assignee, dueDate, "medium", false, "manual", now)
  }

  /** The tasks carrying id `id`. */
  function HasId(id: string): Task -> bool {
    (t: Task) => t.id == id
  }

  /** The panel's state. */
  class TaskBoard {
    var tasks: seq<Task>
    var newTaskTitle: string

    constructor (initial: seq<Task>)
      ensures tasks == initial && newTaskTitle == ""
    {
      tasks := initial;
      newTaskTitle := "";
    }

    /** `toggleTask(taskId)`: nothing happens for an unknown id. Otherwise the
        tasks with that id get the opposite of the first one's flag; when the
        session allows, the new flag is sent, and if that request `failed` the
        flag is set back. Returns the flag sent, if any. */
    method ToggleTask(taskId: string, user: Option<Session.ClientUser>, token: Option<string>, failed: bool)
      returns (sent: Option<bool>)
      modifies this
      ensures FindById(old(tasks), taskId).None? ==> tasks == old(tasks) && sent.None?
      ensures FindById(old(tasks), taskId).Some? ==>
        var c := FindById(old(tasks), taskId).value.completed;
        sent == (if Session.CanSync(user, token) then Some(!c) else None) &&
        tasks == (if Session.CanSync(user, token) && failed then SetCompleted(old(tasks), taskId, c)
                  else SetCompleted(old(tasks), taskId, !c))
      ensures newTaskTitle == old(newTaskTitle)
    {
      sent := None;
      var task := FindById(tasks, taskId);
      if task.None? {
        return;
      }
      var before := tasks;
      var newCompleted := !task.value.completed;
      tasks := SetCompleted(tasks, taskId, newCompleted);
      if Session.CanSync(user, token) {
        sent := Some(newCompleted);
        if failed {
          tasks := SetCompleted(before, taskId, task.value.completed);
        }
      }
    }

    /** `addTask` at clock reading `now`, with `dueDate` three days ahead: nothing
        happens for a blank title. Otherwise the task is shown first under
        `temp-{now}` and the input is cleared; when the session allows, the task is
        sent and `reply` (the server's task, or `None` when the request failed)
        takes the temporary task's place. Returns the request sent, if any. */
    method AddTask(user: Option<Session.ClientUser>, token: Option<string>, now: nat, dueDate: string,
                   reply: Option<Task>)
      returns (sent: Option<TaskRequest>)
      modifies this
      ensures Text.IsBlank(old(newTaskTitle)) ==> unchanged(this) && sent.None?
      ensures !Text.IsBlank(old(newTaskTitle)) ==>
        var assignee := Session.NameOr(user, "You");
        var t := NewTask(old(newTaskTitle), "temp-" + Text.NatToString(now), assignee, dueDate, now);
        newTaskTitle == "" &&
        tasks == Lists.ShowThenReplace(old(tasks), t, HasId(t.id), if Session.CanSync(user, token) then reply else None) &&
        sent == (if Session.CanSync(user, token)
                 then Some(TaskRequest(old(newTaskTitle), assignee, dueDate, "medium", "manual"))
                 else None)
    {
      sent := None;
      if Text.Trim(newTaskTitle) == "" {
        return;
      }
      var assignee := Session.NameOr(user, "You");
      var t := NewTask(newTaskTitle, "temp-" + Text.NatToString(now), assignee, dueDate, now);
      if Session.CanSync(user, token) {
        sent := Some(TaskRequest(newTaskTitle, assignee, dueDate, "medium", "manual"));
        tasks := Lists.ShowThenReplace(tasks, t, HasId(t.id), reply);
      } else {
        tasks := Lists.ShowThenReplace(tasks, t, HasId(t.id), None);
      }
      newTaskTitle := "";
    }
  }
}
