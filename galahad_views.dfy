/**
 * The human-task and manual-override views of galahad (galahad/views.py): template
 * names, the task a view works on, completing a human task, and the override that
 * force-completes a process's active tasks and re-enters the graph at chosen nodes.
 */
module GalahadViews {
  import opened Wrappers
  import opened ProcessGraph
  import opened Tasks
  import opened ViewSupport

  // ---------------------------------------------------------------------------
  // get_template_names
  // ---------------------------------------------------------------------------

  /**
   * `ProcessTemplateNameViewMixin.get_template_names`: the per-node name first, then the
   * names the parent view gives (`inherited`) unchanged and in order, then the per-app
   * fallback last.
   */
  method GetTemplateNames(appLabel: string, modelName: string, nodeName: Option<string>,
                          inherited: seq<string>, suffix: string)
    returns (names: seq<string>)
    ensures |names| == |inherited| + 2
    ensures names[0] == NodeTemplate(appLabel, modelName, nodeName)
    ensures names[1..|names| - 1] == inherited
    ensures names[|names| - 1] == ProcessTemplate(appLabel, suffix)
  {
    names := [NodeTemplate(appLabel, modelName, nodeName)];
    names := names + inherited;
    names := names + [ProcessTemplate(appLabel, suffix)];
  }

  // ---------------------------------------------------------------------------
  // get_task and post
  // ---------------------------------------------------------------------------

  /**
   * `TaskViewMixin.get_task`: with a key, the stored task with that key, this view's node
   * name and no completion, else not found; without a key, a new unsaved task with this
   * node name (and no node type).
   */
  function GetTask(store: TaskStore, pk: Option<TaskId>, nodeName: string): (r: Result<TaskRef, ViewError>)
    reads store
    ensures pk.None? ==> r == Success(Unsaved(nodeName, None))
    ensures pk.Some? ==> (r.Success? <==> IsOpenTask(store.rows, pk.value, nodeName))
    ensures pk.Some? && r.Success? ==> r.value == Stored(pk.value)
    ensures r.Failure? ==> r.error == NotFound
  {
    if pk.None? then Success(Unsaved(nodeName, None))
    else if IsOpenTask(store.rows, pk.value, nodeName) then Success(Stored(pk.value))
    else Failure(NotFound)
  }

  /**
   * `TaskViewMixin.post`: after the parent view has handled the form (its response is
   * `response`; `saved` is the process its form saved, `None` when the form was invalid),
   * finish the task, then start its default successors, each with the task as its only
   * parent. For a stored task
   * the process is the task's own, so an invalid update form still finishes the task.
   * A new task with no process cannot be inserted (the process column is not nullable):
   * the transaction is rolled back.
   */
  method Post<R>(store: TaskStore, edges: seq<(Node, Node)>, nodeName: string, pk: Option<TaskId>,
                 saved: Option<ProcessId>, response: R)
    returns (r: Result<R, ViewError>)
    requires store.Valid()
    modifies store
    ensures store.Valid()
    ensures r.Failure? <==> (pk.Some? && !IsOpenTask(old(store.rows), pk.value, nodeName))
                            || (pk.None? && saved.None?)
    ensures r.Failure? ==> store.rows == old(store.rows) && store.log == old(store.log)
    ensures r.Failure? ==> r.error == if pk.Some? then NotFound else NoProcess
    ensures r.Success? ==> r.value == response
    ensures r.Success? && pk.Some? ==>
              var id := pk.value;
              var row := old(store.rows)[id];
              && store.rows == old(store.rows)[id := FinishedRow(row, None)]
                               + Children(row.process, NextNodes(edges, nodeName), id)
              && store.log == old(store.log) + [Updated(id, FinishFields + ["modified"])]
                              + EnqueueRequests(NextNodes(edges, nodeName), old(|store.rows|))
    ensures r.Success? && pk.None? ==>
              var id := old(|store.rows|);
              && store.rows == old(store.rows) + [AssignFinish(NewTask(saved.value, nodeName, None), None)]
                               + Children(saved.value, NextNodes(edges, nodeName), id)
              && store.log == old(store.log) + EnqueueRequests(NextNodes(edges, nodeName), id + 1)
  {
    var found := GetTask(store, pk, nodeName);
    if found.Failure? {
      return Failure(found.error);
    }
    var id: TaskId;
    match found.value {
      case Stored(stored) =>
        store.Finish(stored, None);
        id := stored;
      case Unsaved(name, nodeType) =>
        if saved.None? {
          return Failure(NoProcess);
        }
        id := store.FinishNew(NewTask(saved.value, name, nodeType), None);
    }
    var _ := store.StartNextTasks(id, edges, None);
    r := Success(response);
  }

  // ---------------------------------------------------------------------------
  // ManualOverrideView
  // ---------------------------------------------------------------------------

  /**
   * `ManualOverrideView.get_task_choices`: one `(name, name)` pair per distinct node name
   * of the process, each name of a node exactly once.
   */
  method GetTaskChoices(edges: seq<(Node, Node)>) returns (choices: seq<(string, string)>)
    ensures forall k :: 0 <= k < |choices| ==> choices[k].0 == choices[k].1
    ensures forall k :: 0 <= k < |choices| ==> KnownName(edges, choices[k].0)
    ensures forall n :: n in Endpoints(edges) ==> exists k :: 0 <= k < |choices| && choices[k].0 == n.name
    ensures forall j, k :: 0 <= j < k < |choices| ==> choices[j].0 != choices[k].0
  {
    var pairs := GetNodes(edges);
    // the keys of `dict(pairs)`, in insertion order
    var keys: seq<string> := [];
    for i := 0 to |pairs|
      invariant forall k :: 0 <= k < |keys| ==> KnownName(edges, keys[k])
      invariant forall j :: 0 <= j < i ==> pairs[j].0 in keys
      invariant forall j, k :: 0 <= j < k < |keys| ==> keys[j] != keys[k]
    {
      if pairs[i].0 !in keys {
        assert pairs[i].1 in Endpoints(edges) && pairs[i].1.name == pairs[i].0;
        keys := keys + [pairs[i].0];
      }
    }
    choices := seq(|keys|, k requires 0 <= k < |keys| => (keys[k], keys[k]));
    forall n | n in Endpoints(edges) ensures exists k :: 0 <= k < |choices| && choices[k].0 == n.name {
      var j :| 0 <= j < |pairs| && pairs[j].1 == n;
      assert pairs[j].0 in keys;
      var k :| 0 <= k < |keys| && keys[k] == pairs[j].0;
      assert choices[k].0 == n.name;
    }
  }

  /** `nodes` are nodes of the graph named, one by one, by `names`. */
  ghost predicate ResolvesTo(edges: seq<(Node, Node)>, names: seq<string>, nodes: seq<Node>)
  {
    && |nodes| == |names|
    && forall k :: 0 <= k < |names| ==> nodes[k] in Endpoints(edges) && nodes[k].name == names[k]
  }

  /**
   * `ManualOverrideView.get_next_task_nodes`: the chosen names mapped through `get_node`
   * in order; the `KeyError` of the first unknown name otherwise.
   */
  method GetNextTaskNodes(edges: seq<(Node, Node)>, names: seq<string>) returns (r: Result<seq<Node>, ViewError>)
    ensures r.Success? ==> ResolvesTo(edges, names, r.value)
    ensures r.Failure? <==> exists k :: 0 <= k < |names| && !KnownName(edges, names[k])
    ensures r.Failure? ==>
              exists k :: 0 <= k < |names| && !KnownName(edges, names[k])
                          && (forall j :: 0 <= j < k ==> KnownName(edges, names[j]))
                          && r.error == UnknownNode(names[k])
  {
    var nodes: seq<Node> := [];
    for i := 0 to |names|
      invariant ResolvesTo(edges, names[..i], nodes)
    {
      var node := GetNode(edges, names[i]);
      if node.Failure? {
        assert forall j :: 0 <= j < i ==> KnownName(edges, names[j]) by {
          forall j | 0 <= j < i
            ensures KnownName(edges, names[j])
          {
            assert nodes[j] in Endpoints(edges) && nodes[j].name == names[..i][j];
          }
        }
        return Failure(UnknownNode(names[i]));
      }
      nodes := nodes + [node.value];
    }
    assert names[..|names|] == names;
    r := Success(nodes);
  }

  /** A task of `process` that is not completed. */
  predicate IsActive(t: Task, process: ProcessId)
  {
    t.process == process && !t.completed
  }

  /**
   * `process.task_set.filter(completed=None)` in the default ordering `('-completed',
   * '-created')`: the active tasks of the process, newest first.
   */
  function ActiveTasks(rows: seq<Task>, process: ProcessId): (r: seq<TaskId>)
    ensures forall k :: 0 <= k < |r| ==> r[k] < |rows| && IsActive(rows[r[k]], process)
    ensures forall i :: 0 <= i < |rows| && IsActive(rows[i], process) ==> i in r
    ensures forall j, k :: 0 <= j < k < |r| ==> r[j] > r[k]
  {
    if rows == [] then []
    else
      var last := |rows| - 1;
      (if IsActive(rows[last], process) then [last] else []) + ActiveTasks(rows[..last], process)
  }

  /** The override task before it is finished: named `manual_override`, parented by `active`. */
  function OverrideTask(process: ProcessId, active: seq<TaskId>): Task
  {
    NewTask(process, "manual_override", None).(parents := set t | t in active)
  }

  /**
   * The table and events after an override of `process` with chosen names `chosen`,
   * starting from `rows0` and `log0`.
   */
  ghost predicate Overridden(rows0: seq<Task>, log0: seq<Event>, rows: seq<Task>, log: seq<Event>,
                             edges: seq<(Node, Node)>, process: ProcessId, chosen: seq<string>)
  {
    var active := ActiveTasks(rows0, process);
    var o := |rows0|;
    && |rows| > o
    && (forall i :: 0 <= i < o ==> rows[i] == if i in active then FinishedRow(rows0[i], None) else rows0[i])
    && rows[o] == FinishedRow(OverrideTask(process, active), None)
    && exists nodes :: && ResolvesTo(edges, chosen, nodes)
                       && rows[o + 1..] == Children(process, nodes, o)
                       && log == log0 + FinishEvents(active) + [Updated(o, FinishFields + ["modified"])]
                                 + EnqueueRequests(nodes, o + 1)
  }

  /**
   * `ManualOverrideView.form_valid`: finish every active task of the process, create a
   * `manual_override` task whose parents are exactly those tasks, finish it, and start a
   * task for each chosen node with the override task as parent. An unknown name aborts
   * the whole transaction: nothing changes.
   */
  method FormValid<R>(store: TaskStore, edges: seq<(Node, Node)>, process: ProcessId,
                      chosen: seq<string>, response: R)
    returns (r: Result<R, ViewError>)
    requires store.Valid()
    modifies store
    ensures store.Valid()
    ensures r.Failure? <==> exists k :: 0 <= k < |chosen| && !KnownName(edges, chosen[k])
    ensures r.Failure? ==> store.rows == old(store.rows) && store.log == old(store.log)
    ensures r.Success? ==> r.value == response
    ensures r.Success? ==> Overridden(old(store.rows), old(store.log), store.rows, store.log, edges, process, chosen)
  {
    var next := GetNextTaskNodes(edges, chosen);
    if next.Failure? {
      return Failure(next.error);
    }
    Override(store, edges, process, chosen, next.value);
    r := Success(response);
  }

  /** The body of `form_valid` once every chosen name has resolved to a node. */
  method Override(store: TaskStore, edges: seq<(Node, Node)>, process: ProcessId,
                  ghost chosen: seq<string>, nodes: seq<Node>)
    requires store.Valid() && ResolvesTo(edges, chosen, nodes)
    modifies store
    ensures store.Valid()
    ensures Overridden(old(store.rows), old(store.log), store.rows, store.log, edges, process, chosen)
  {
    ghost var rows0, log0 := store.rows, store.log;
    var active := ActiveTasks(store.rows, process);
    FinishEach(store, active);
    ghost var rowsF := store.rows;
    var o := CreateOverride(store, process, active);
    var _ := store.StartNextTasks(o, edges, Some(nodes));
    OverriddenIntro(rows0, log0, rowsF, store.rows, store.log, edges, process, chosen, nodes);
  }

  /**
   * `task_set.create(node_name='manual_override')`, then `parent_task_set.set(active)`
   * and `finish()`: the override task is appended finished, parented by `active`.
   */
  method CreateOverride(store: TaskStore, process: ProcessId, active: seq<TaskId>) returns (o: TaskId)
    requires store.Valid()
    requires forall k :: 0 <= k < |active| ==> active[k] < |store.rows|
    modifies store
    ensures store.Valid()
    ensures o == old(|store.rows|)
    ensures store.rows == old(store.rows) + [FinishedRow(OverrideTask(process, active), None)]
    ensures store.log == old(store.log) + [Updated(o, FinishFields + ["modified"])]
  {
    ghost var rows0 := store.rows;
    o := store.Create(process, "manual_override", None);
    store.SetParents(o, set t | t in active);
    store.Finish(o, None);
    assert store.rows[..o] == rows0;
  }

  /** The steps of `FormValid`, put together. */
  lemma OverriddenIntro(rows0: seq<Task>, log0: seq<Event>, rowsF: seq<Task>, rows: seq<Task>, log: seq<Event>,
                        edges: seq<(Node, Node)>, process: ProcessId, chosen: seq<string>, nodes: seq<Node>)
    requires |rowsF| == |rows0|
    requires forall i :: 0 <= i < |rows0| ==>
               rowsF[i] == if i in ActiveTasks(rows0, process) then FinishedRow(rows0[i], None) else rows0[i]
    requires rows == rowsF + [FinishedRow(OverrideTask(process, ActiveTasks(rows0, process)), None)]
                     + Children(process, nodes, |rows0|)
    requires log == log0 + FinishEvents(ActiveTasks(rows0, process)) + [Updated(|rows0|, FinishFields + ["modified"])]
                    + EnqueueRequests(nodes, |rows0| + 1)
    requires ResolvesTo(edges, chosen, nodes)
    ensures Overridden(rows0, log0, rows, log, edges, process, chosen)
  {
    var o := |rows0|;
    assert rows[o + 1..] == Children(process, nodes, o);
    assert forall i :: 0 <= i < o ==> rows[i] == rowsF[i];
  }

  /** `for task in active_tasks: task.finish()`, on distinct stored tasks. */
  method FinishEach(store: TaskStore, ids: seq<TaskId>)
    requires store.Valid()
    requires forall k :: 0 <= k < |ids| ==> ids[k] < |store.rows|
    requires forall j, k :: 0 <= j < k < |ids| ==> ids[j] != ids[k]
    modifies store
    ensures store.Valid()
    ensures |store.rows| == old(|store.rows|)
    ensures forall i :: 0 <= i < |store.rows| ==>
              store.rows[i] == if i in ids then FinishedRow(old(store.rows)[i], None) else old(store.rows)[i]
    ensures store.log == old(store.log) + FinishEvents(ids)
  {
    ghost var rows0, log0 := store.rows, store.log;
    for i := 0 to |ids|
      invariant store.Valid()
      invariant |store.rows| == |rows0|
      invariant forall j :: 0 <= j < |rows0| ==>
                  store.rows[j] == if j in ids[..i] then FinishedRow(rows0[j], None) else rows0[j]
      invariant store.log == log0 + FinishEvents(ids[..i])
    {
      assert ids[..i + 1][..i] == ids[..i];
      assert ids[i] !in ids[..i];
      store.Finish(ids[i], None);
    }
    assert ids[..|ids|] == ids;
  }

  /**
   * After an override no task of the process that was active is still uncompleted, the
   * override task is completed and its parents are exactly the previously active tasks.
   */
  lemma OverrideCompletesActive(rows0: seq<Task>, log0: seq<Event>, rows: seq<Task>, log: seq<Event>,
                                edges: seq<(Node, Node)>, process: ProcessId, chosen: seq<string>)
    requires Overridden(rows0, log0, rows, log, edges, process, chosen)
    ensures forall i :: 0 <= i < |rows0| && rows0[i].process == process ==> rows[i].completed
    ensures var o := |rows0|;
            && rows[o].completed && rows[o].nodeName == "manual_override"
            && forall i :: i in rows[o].parents <==> 0 <= i < |rows0| && IsActive(rows0[i], process)
  {
    var active := ActiveTasks(rows0, process);
    forall i | 0 <= i < |rows0| && rows0[i].process == process ensures rows[i].completed {
      if !rows0[i].completed {
        assert i in active;
      }
    }
  }

  /**
   * After an override each re-entered task carries a chosen node's name, in the order
   * chosen, is not completed, and has the override task as its sole parent.
   */
  lemma OverrideReentersChosen(rows0: seq<Task>, log0: seq<Event>, rows: seq<Task>, log: seq<Event>,
                               edges: seq<(Node, Node)>, process: ProcessId, chosen: seq<string>)
    requires Overridden(rows0, log0, rows, log, edges, process, chosen)
    ensures |rows| == |rows0| + 1 + |chosen|
    ensures forall k :: 0 <= k < |chosen| ==>
              var t := rows[|rows0| + 1 + k];
              t.nodeName == chosen[k] && t.parents == {|rows0|} && !t.completed && t.process == process
  {
    var o := |rows0|;
    var nodes :| && ResolvesTo(edges, chosen, nodes)
                 && rows[o + 1..] == Children(process, nodes, o)
                 && log == log0 + FinishEvents(ActiveTasks(rows0, process)) + [Updated(o, FinishFields + ["modified"])]
                           + EnqueueRequests(nodes, o + 1);
    forall k | 0 <= k < |chosen| ensures rows[o + 1 + k] == ChildTask(process, nodes[k], o) {
      assert rows[o + 1 + k] == rows[o + 1..][k];
    }
  }
}
