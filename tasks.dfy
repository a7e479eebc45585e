/**
 * Task records and their lifecycle (galahad/models.py, class `Task`): the rule `save`
 * enforces on `update_fields`, the field assignments of `finish`, `fail` and `enqueue`,
 * and `start_next_tasks`, which grows the append-only parent/child graph of a process.
 *
 * `TaskStore` stands for the task table. A lifecycle method first assigns fields on the
 * in-memory task (the `Assign...` functions) and then saves it; saving a stored task
 * writes only the columns named in `update_fields` (`WriteFields`).
 */
module Tasks {
  import opened Wrappers
  import opened Text
  import opened ProcessGraph

  /** A task's primary key: its position in the table. */
  type TaskId = nat
  type ProcessId = nat
  type User = nat

  /** `Task.SCHEDULED`, `Task.SUCCEEDED`, `Task.FAILED`. */
  datatype Status = Scheduled | Succeeded | Failed

  /**
   * A task row. `nodeType` is `None` for the empty text the column holds when a task is
   * created without a type; `completed` stands for the completion timestamp being set.
   */
  datatype Task = Task(
    process: ProcessId,
    nodeName: string,
    nodeType: Option<NodeType>,
    status: Status,
    completed: bool,
    completedBy: Option<User>,
    exception: string,
    stacktrace: string,
    parents: set<TaskId>)

  /** A task as the model constructor makes it: every other field at its default. */
  function NewTask(process: ProcessId, nodeName: string, nodeType: Option<NodeType>): Task
  {
    Task(process, nodeName, nodeType, Scheduled, false, None, "", "", {})
  }

  const FinishFields: seq<string> := ["status", "completed", "completed_by_user"]
  const FailFields: seq<string> := ["status", "exception", "stacktrace"]
  const EnqueueFields: seq<string> := ["status", "completed", "exception", "stacktrace"]

  // ---------------------------------------------------------------------------
  // save(): the update_fields rule
  // ---------------------------------------------------------------------------

  /** The `ValueError` asking for explicit `update_fields`. */
  datatype SaveError = UpdateFieldsRequired

  /**
   * `Task.save(**kwargs)`: the `update_fields` handed on to the database save. A task
   * that has a primary key must come with `update_fields`, which get `'modified'`
   * appended; a task without one is saved as given.
   */
  function TaskSave(hasPk: bool, updateFields: Option<seq<string>>): (r: Result<Option<seq<string>>, SaveError>)
    ensures r.Failure? <==> hasPk && updateFields.None?
    ensures hasPk && r.Success? ==> r.value == Some(updateFields.value + ["modified"])
    ensures !hasPk ==> r == Success(updateFields)
  {
    if !hasPk then Success(updateFields)
    else if updateFields.None? then Failure(UpdateFieldsRequired)
    else Success(Some(updateFields.value + ["modified"]))
  }

  /** `Process.save(**kwargs)`: the same `'modified'` rule, but it never raises. */
  function ProcessSave(hasPk: bool, updateFields: Option<seq<string>>): (r: Option<seq<string>>)
    ensures r.None? <==> updateFields.None?
    ensures r.Some? ==> |r.value| == |updateFields.value| + (if hasPk then 1 else 0)
  {
    if hasPk && updateFields.Some? then Some(updateFields.value + ["modified"]) else updateFields
  }

  /**
   * The two saves agree whenever the task save succeeds; where it raises, the process
   * save passes the absent `update_fields` on untouched.
   */
  lemma SavesAgree(hasPk: bool, updateFields: Option<seq<string>>)
    ensures TaskSave(hasPk, updateFields).Success? ==> TaskSave(hasPk, updateFields).value == ProcessSave(hasPk, updateFields)
    ensures TaskSave(hasPk, updateFields).Failure? ==> ProcessSave(hasPk, updateFields) == None
    ensures hasPk && updateFields.Some? ==>
              var f := ProcessSave(hasPk, updateFields).value;
              f[..|f| - 1] == updateFields.value && f[|f| - 1] == "modified"
  {
  }

  /**
   * A save with `update_fields`: exactly the listed columns take the in-memory values;
   * every other column keeps what was stored. (`'modified'` is not modelled.)
   */
  function WriteFields(row: Task, obj: Task, fields: seq<string>): (r: Task)
    ensures r.process == row.process && r.parents == row.parents
    ensures fields == [] ==> r == row
    ensures (forall f :: f in fields ==> f == "modified") ==> r == row
  {
    row.(
      status := if "status" in fields then obj.status else row.status,
      completed := if "completed" in fields then obj.completed else row.completed,
      completedBy := if "completed_by_user" in fields then obj.completedBy else row.completedBy,
      exception := if "exception" in fields then obj.exception else row.exception,
      stacktrace := if "stacktrace" in fields then obj.stacktrace else row.stacktrace,
      nodeName := if "node_name" in fields then obj.nodeName else row.nodeName,
      nodeType := if "node_type" in fields then obj.nodeType else row.nodeType)
  }

  // ---------------------------------------------------------------------------
  // finish(), fail(), enqueue(): the in-memory assignments
  // ---------------------------------------------------------------------------

  /** `finish(user)`: status SUCCEEDED, completed, completed by `user`; nothing else. */
  function AssignFinish(t: Task, user: Option<User>): (r: Task)
    ensures r.status == Succeeded && r.completed && r.completedBy == user
    ensures r.(status := t.status, completed := t.completed, completedBy := t.completedBy) == t
  {
    t.(completed := true, status := Succeeded, completedBy := user)
  }

  /**
   * `fail()`: status FAILED, completed, the exception is the last traceback line
   * stripped, the stack trace is the whole traceback joined; nothing else.
   */
  function AssignFail(t: Task, traceback: seq<string>): (r: Task)
    requires |traceback| > 0
    ensures r.status == Failed && r.completed
    ensures r.exception == Strip(traceback[|traceback| - 1]) && r.stacktrace == Join(traceback)
    ensures r.(status := t.status, completed := t.completed, exception := t.exception, stacktrace := t.stacktrace) == t
  {
    t.(completed := true, status := Failed,
       exception := Strip(traceback[|traceback| - 1]), stacktrace := Join(traceback))
  }

  /** `enqueue()`: status SCHEDULED, not completed, no exception, no stack trace. */
  function AssignEnqueue(t: Task): (r: Task)
    ensures r.status == Scheduled && !r.completed && r.exception == [] && r.stacktrace == []
    ensures r.(status := t.status, completed := t.completed, exception := t.exception, stacktrace := t.stacktrace) == t
  {
    t.(status := Scheduled, completed := false, exception := "", stacktrace := "")
  }

  /** What `finish` leaves in the table for a stored task. */
  function FinishedRow(row: Task, user: Option<User>): Task
  {
    WriteFields(row, AssignFinish(row, user), FinishFields + ["modified"])
  }

  /** What `fail` leaves in the table. */
  function FailedRow(row: Task, traceback: seq<string>): Task
    requires |traceback| > 0
  {
    WriteFields(row, AssignFail(row, traceback), FailFields + ["modified"])
  }

  /** What `enqueue` leaves in the table. */
  function EnqueuedRow(row: Task): Task
  {
    WriteFields(row, AssignEnqueue(row), EnqueueFields + ["modified"])
  }

  /** A finished stored task has every assignment of `finish` persisted. */
  lemma FinishPersists(row: Task, user: Option<User>)
    ensures FinishedRow(row, user) == AssignFinish(row, user)
  {
  }

  /**
   * `fail` persists status, exception and stack trace, but `'completed'` is not among
   * its `update_fields`: the stored completion stays what it was.
   */
  lemma FailPersists(row: Task, traceback: seq<string>)
    requires |traceback| > 0
    ensures FailedRow(row, traceback) == AssignFail(row, traceback).(completed := row.completed)
    ensures !row.completed ==> FailedRow(row, traceback) != AssignFail(row, traceback)
  {
  }

  /** The exception text of a failed task comes from the last line of its stack trace. */
  lemma FailExceptionFromStacktrace(row: Task, traceback: seq<string>)
    requires |traceback| > 0
    ensures var f := FailedRow(row, traceback);
            var last := traceback[|traceback| - 1];
            f.stacktrace[|f.stacktrace| - |last|..] == last && f.exception == Strip(last)
  {
    JoinEndsWithLast(traceback);
  }

  /** A stored task that is enqueued has every assignment of `enqueue` persisted. */
  lemma EnqueuePersists(row: Task)
    ensures EnqueuedRow(row) == AssignEnqueue(row)
  {
  }

  // ---------------------------------------------------------------------------
  // start_next_tasks(): the rows and queue requests it produces
  // ---------------------------------------------------------------------------

  /** The task `start_next_tasks` creates for `node`, already linked to `parent`. */
  function ChildTask(process: ProcessId, node: Node, parent: TaskId): Task
  {
    NewTask(process, node.name, Some(node.nodeType)).(parents := {parent})
  }

  /** One child task per node, in order. */
  function Children(process: ProcessId, nodes: seq<Node>, parent: TaskId): (r: seq<Task>)
    ensures |r| == |nodes|
    ensures forall k :: 0 <= k < |nodes| ==> r[k] == ChildTask(process, nodes[k], parent)
  {
    if nodes == [] then []
    else Children(process, nodes[..|nodes| - 1], parent) + [ChildTask(process, nodes[|nodes| - 1], parent)]
  }

  /** Enqueueing a freshly created child task changes nothing in its row. */
  lemma EnqueueFreshChild(process: ProcessId, node: Node, parent: TaskId)
    ensures EnqueuedRow(ChildTask(process, node, parent)) == ChildTask(process, node, parent)
  {
  }

  /** The interesting events of a transaction, in order. */
  datatype Event =
    | Updated(task: TaskId, fields: seq<string>)   // a save with these update_fields
    | EnqueueOnCommit(task: TaskId)                 // `transaction.on_commit(task.enqueue)`
    | Dispatch(task: TaskId)                        // the queue call `enqueue` registers

  /**
   * The on-commit enqueue requests for children created at keys `base, base + 1, ...`:
   * one per callable node.
   */
  function EnqueueRequests(nodes: seq<Node>, base: TaskId): seq<Event>
  {
    if nodes == [] then []
    else
      var init := nodes[..|nodes| - 1];
      EnqueueRequests(init, base)
        + (if IsCallable(nodes[|nodes| - 1].impl) then [EnqueueOnCommit(base + |init|)] else [])
  }

  /** A request is made for each callable node and for nothing else. */
  lemma {:induction false} EnqueueRequestsExactly(nodes: seq<Node>, base: TaskId)
    ensures forall e :: e in EnqueueRequests(nodes, base) ==>
              e.EnqueueOnCommit? && base <= e.task < base + |nodes| && IsCallable(nodes[e.task - base].impl)
    ensures forall k :: 0 <= k < |nodes| && IsCallable(nodes[k].impl) ==>
              EnqueueOnCommit(base + k) in EnqueueRequests(nodes, base)
    decreases |nodes|
  {
    if nodes != [] {
      var init := nodes[..|nodes| - 1];
      EnqueueRequestsExactly(init, base);
      assert forall k :: 0 <= k < |init| ==> init[k] == nodes[k];
    }
  }

  /** The children of one more node are the children so far and that node's child. */
  lemma ChildrenStep(process: ProcessId, nodes: seq<Node>, i: nat, parent: TaskId)
    requires i < |nodes|
    ensures Children(process, nodes[..i + 1], parent)
            == Children(process, nodes[..i], parent) + [ChildTask(process, nodes[i], parent)]
  {
    assert nodes[..i + 1][..i] == nodes[..i];
  }

  /** The requests for one more node are the requests so far and that node's request. */
  lemma EnqueueRequestsStep(nodes: seq<Node>, i: nat, base: TaskId)
    requires i < |nodes|
    ensures EnqueueRequests(nodes[..i + 1], base)
            == EnqueueRequests(nodes[..i], base)
               + if IsCallable(nodes[i].impl) then [EnqueueOnCommit(base + i)] else []
  {
    assert nodes[..i + 1][..i] == nodes[..i];
  }

  /** The update events of finishing the stored tasks `ids`, one after another. */
  function FinishEvents(ids: seq<TaskId>): seq<Event>
  {
    if ids == [] then [] else FinishEvents(ids[..|ids| - 1]) + [Updated(ids[|ids| - 1], FinishFields + ["modified"])]
  }

  /** `next_nodes` if given, else `get_next_nodes(self.node)`. */
  function SuccessorsOf(edges: seq<(Node, Node)>, nextNodes: Option<seq<Node>>, nodeName: string): seq<Node>
  {
    if nextNodes.Some? then nextNodes.value else NextNodes(edges, nodeName)
  }

  // ---------------------------------------------------------------------------
  // The task table
  // ---------------------------------------------------------------------------

  class TaskStore {
    var rows: seq<Task>
    var log: seq<Event>

    /** The parent/child graph only ever points back to older tasks, so it is acyclic. */
    ghost predicate Valid()
      reads this
    {
      forall i, p :: 0 <= i < |rows| && p in rows[i].parents ==> p < i
    }

    constructor ()
      ensures Valid() && rows == [] && log == []
    {
      rows := [];
      log := [];
    }

    /** The database save of a task that has no primary key yet: a new row. */
    method Insert(t: Task) returns (id: TaskId)
      requires Valid() && t.parents == {}
      modifies this
      ensures Valid()
      ensures id == old(|rows|) && rows == old(rows) + [t] && log == old(log)
    {
      id := |rows|;
      rows := rows + [t];
    }

    /** `Task.save(update_fields=...)` of the stored task `id` from the in-memory `obj`. */
    method Save(id: TaskId, obj: Task, updateFields: Option<seq<string>>) returns (r: Result<(), SaveError>)
      requires Valid() && id < |rows|
      modifies this
      ensures Valid()
      ensures r.Failure? <==> updateFields.None?
      ensures r.Failure? ==> rows == old(rows) && log == old(log)
      ensures r.Success? ==>
                && rows == old(rows)[id := WriteFields(old(rows)[id], obj, updateFields.value + ["modified"])]
                && log == old(log) + [Updated(id, updateFields.value + ["modified"])]
    {
      var saved := TaskSave(true, updateFields);
      if saved.Failure? {
        r := Failure(saved.error);
      } else {
        var fields := saved.value.value;
        rows := rows[id := WriteFields(rows[id], obj, fields)];
        log := log + [Updated(id, fields)];
        r := Success(());
      }
    }

    /** `finish(user)` on the stored task `id`. */
    method Finish(id: TaskId, user: Option<User>)
      requires Valid() && id < |rows|
      modifies this
      ensures Valid()
      ensures rows == old(rows)[id := FinishedRow(old(rows)[id], user)]
      ensures log == old(log) + [Updated(id, FinishFields + ["modified"])]
    {
      var _ := Save(id, AssignFinish(rows[id], user), Some(FinishFields));
    }

    /** `finish(user)` on a task not yet saved: it is inserted finished. */
    method FinishNew(t: Task, user: Option<User>) returns (id: TaskId)
      requires Valid() && t.parents == {}
      modifies this
      ensures Valid()
      ensures id == old(|rows|) && rows == old(rows) + [AssignFinish(t, user)] && log == old(log)
    {
      id := Insert(AssignFinish(t, user));
    }

    /** `fail()` on the stored task `id`, with the current exception's traceback lines. */
    method Fail(id: TaskId, traceback: seq<string>)
      requires Valid() && id < |rows| && |traceback| > 0
      modifies this
      ensures Valid()
      ensures rows == old(rows)[id := FailedRow(old(rows)[id], traceback)]
      ensures log == old(log) + [Updated(id, FailFields + ["modified"])]
    {
      var _ := Save(id, AssignFail(rows[id], traceback), Some(FailFields));
    }

    /** `enqueue()` on the stored task `id`: reset it and hand it to the queue on commit. */
    method Enqueue(id: TaskId)
      requires Valid() && id < |rows|
      modifies this
      ensures Valid()
      ensures rows == old(rows)[id := EnqueuedRow(old(rows)[id])]
      ensures log == old(log) + [Updated(id, EnqueueFields + ["modified"]), Dispatch(id)]
    {
      var _ := Save(id, AssignEnqueue(rows[id]), Some(EnqueueFields));
      log := log + [Dispatch(id)];
    }

    /** `process.task_set.create(node_name=..., node_type=...)`. */
    method Create(process: ProcessId, nodeName: string, nodeType: Option<NodeType>) returns (id: TaskId)
      requires Valid()
      modifies this
      ensures Valid()
      ensures id == old(|rows|) && rows == old(rows) + [NewTask(process, nodeName, nodeType)] && log == old(log)
    {
      id := Insert(NewTask(process, nodeName, nodeType));
    }

    /** `child.parent_task_set.add(parent)`. */
    method AddParent(child: TaskId, parent: TaskId)
      requires Valid() && parent < child < |rows|
      modifies this
      ensures Valid()
      ensures rows == old(rows)[child := old(rows)[child].(parents := old(rows)[child].parents + {parent})]
      ensures log == old(log)
    {
      rows := rows[child := rows[child].(parents := rows[child].parents + {parent})];
    }

    /** `child.parent_task_set.set(parents)`. */
    method SetParents(child: TaskId, parents: set<TaskId>)
      requires Valid() && child < |rows| && forall p :: p in parents ==> p < child
      modifies this
      ensures Valid()
      ensures rows == old(rows)[child := old(rows)[child].(parents := parents)]
      ensures log == old(log)
    {
      rows := rows[child := rows[child].(parents := parents)];
    }

    /**
     * One turn of the loop in `start_next_tasks`: create the task for `node`, add `id` to
     * its parents, and request its enqueueing on commit when the node is callable.
     */
    method StartChild(process: ProcessId, node: Node, id: TaskId) returns (task: TaskId)
      requires Valid() && id < |rows|
      modifies this
      ensures Valid()
      ensures task == old(|rows|)
      ensures rows == old(rows) + [ChildTask(process, node, id)]
      ensures log == old(log) + if IsCallable(node.impl) then [EnqueueOnCommit(task)] else []
    {
      ghost var before := rows;
      task := Create(process, node.name, Some(node.nodeType));
      AddParent(task, id);
      assert {} + {id} == {id};
      assert rows == before + [ChildTask(process, node, id)];
      if IsCallable(node.impl) {
        log := log + [EnqueueOnCommit(task)];
      }
    }

    /**
     * `start_next_tasks(next_nodes)` on the stored task `id`: one new task per node (by
     * default the successors of the task's node), in order, each with the node's name and
     * type and `id` as its only parent; an enqueue request on commit for each callable
     * node; the new keys in creation order. No existing row changes.
     */
    method StartNextTasks(id: TaskId, edges: seq<(Node, Node)>, nextNodes: Option<seq<Node>>)
      returns (ids: seq<TaskId>)
      requires Valid() && id < |rows|
      modifies this
      ensures Valid()
      ensures var nodes := SuccessorsOf(edges, nextNodes, old(rows)[id].nodeName);
              && rows == old(rows) + Children(old(rows)[id].process, nodes, id)
              && log == old(log) + EnqueueRequests(nodes, old(|rows|))
              && |ids| == |nodes|
              && forall k :: 0 <= k < |ids| ==> ids[k] == old(|rows|) + k
    {
      var nodes := SuccessorsOf(edges, nextNodes, rows[id].nodeName);
      var process := rows[id].process;
      ghost var rows0, log0 := rows, log;
      ids := [];
      for i := 0 to |nodes|
        invariant Valid() && id < |rows0|
        invariant StartedUpTo(rows0, log0, process, nodes, id, ids, i)
      {
        ids := StartStep(rows0, log0, process, nodes, id, ids, i);
      }
      assert nodes[..|nodes|] == nodes;
    }

    /** The loop of `start_next_tasks` after its first `i` nodes. */
    ghost predicate StartedUpTo(rows0: seq<Task>, log0: seq<Event>, process: ProcessId, nodes: seq<Node>,
                                id: TaskId, ids: seq<TaskId>, i: nat)
      reads this
    {
      && i <= |nodes|
      && rows == rows0 + Children(process, nodes[..i], id)
      && log == log0 + EnqueueRequests(nodes[..i], |rows0|)
      && |ids| == i && forall k :: 0 <= k < i ==> ids[k] == |rows0| + k
    }

    /** One turn of the loop of `start_next_tasks`: the `i`-th node gets its child. */
    method StartStep(ghost rows0: seq<Task>, ghost log0: seq<Event>, process: ProcessId, nodes: seq<Node>,
                     id: TaskId, ids: seq<TaskId>, i: nat)
      returns (ids': seq<TaskId>)
      requires Valid() && id < |rows0| && i < |nodes|
      requires StartedUpTo(rows0, log0, process, nodes, id, ids, i)
      modifies this
      ensures Valid()
      ensures StartedUpTo(rows0, log0, process, nodes, id, ids', i + 1)
    {
      ChildrenStep(process, nodes, i, id);
      EnqueueRequestsStep(nodes, i, |rows0|);
      var task := StartChild(process, nodes[i], id);
      assert task == |rows0| + i;
      ids' := ids + [task];
    }
  }
}
