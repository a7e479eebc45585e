/**
 * The human-task views of joeflow (joeflow/views.py): template names, the task a view
 * works on, and `create_task`, which completes a human task on behalf of the requesting
 * user and starts its successors. joeflow's task model is modelled by the same task table
 * as galahad's, its `name` and `type` being the `node_name` and `node_type` columns.
 */
module JoeflowViews {
  import opened Wrappers
  import opened ProcessGraph
  import opened Tasks
  import opened ViewSupport

  /**
   * `ProcessTemplateNameViewMixin.get_template_names`: `'<app>/<model>_<name>.html'`
   * first, the parent view's names next and in order, the per-app fallback last.
   */
  method GetTemplateNames(appLabel: string, modelName: string, name: Option<string>,
                          inherited: seq<string>, suffix: string)
    returns (names: seq<string>)
    ensures |names| == |inherited| + 2
    ensures names[0] == NodeTemplate(appLabel, modelName, name)
    ensures names[1..|names| - 1] == inherited
    ensures names[|names| - 1] == ProcessTemplate(appLabel, suffix)
  {
    names := [NodeTemplate(appLabel, modelName, name)];
    names := names + inherited;
    names := names + [ProcessTemplate(appLabel, suffix)];
  }

  /**
   * `TaskViewMixin.get_task`: with a key, the stored task with that key, this view's
   * name and no completion, else not found; without a key, a new unsaved HUMAN task
   * with this view's name.
   */
  function GetTask(store: TaskStore, pk: Option<TaskId>, name: string): (r: Result<TaskRef, ViewError>)
    reads store
    ensures pk.None? ==> r == Success(Unsaved(name, Some(Human)))
    ensures pk.Some? ==> (r.Success? <==> IsOpenTask(store.rows, pk.value, name))
    ensures pk.Some? && r.Success? ==> r.value == Stored(pk.value)
    ensures r.Failure? ==> r.error == NotFound
  {
    if pk.None? then Success(Unsaved(name, Some(Human)))
    else if IsOpenTask(store.rows, pk.value, name) then Success(Stored(pk.value))
    else Failure(NotFound)
  }

  /**
   * `TaskViewMixin.create_task`: finish the task as `user`, then start its default
   * successors, and return that same task. `saved` is the process the parent view's form
   * saved, `None` when the form was invalid; a stored task keeps its own process. For a
   * new task the process is re-read by `self.object.pk`, which raises when the parent
   * view saved nothing: the transaction is rolled back.
   */
  method CreateTask(store: TaskStore, edges: seq<(Node, Node)>, name: string, pk: Option<TaskId>,
                    saved: Option<ProcessId>, user: User)
    returns (r: Result<TaskId, ViewError>)
    requires store.Valid()
    modifies store
    ensures store.Valid()
    ensures r.Failure? <==> (pk.Some? && !IsOpenTask(old(store.rows), pk.value, name))
                            || (pk.None? && saved.None?)
    ensures r.Failure? ==> store.rows == old(store.rows) && store.log == old(store.log)
    ensures r.Failure? ==> r.error == if pk.Some? then NotFound else NoProcess
    ensures r.Success? && pk.Some? ==>
              var id := pk.value;
              var row := old(store.rows)[id];
              && r.value == id
              && store.rows == old(store.rows)[id := FinishedRow(row, Some(user))]
                               + Children(row.process, NextNodes(edges, name), id)
              && store.log == old(store.log) + [Updated(id, FinishFields + ["modified"])]
                              + EnqueueRequests(NextNodes(edges, name), old(|store.rows|))
    ensures r.Success? && pk.None? ==>
              var id := old(|store.rows|);
              && r.value == id
              && store.rows == old(store.rows) + [AssignFinish(NewTask(saved.value, name, Some(Human)), Some(user))]
                               + Children(saved.value, NextNodes(edges, name), id)
              && store.log == old(store.log) + EnqueueRequests(NextNodes(edges, name), id + 1)
  {
    var found := GetTask(store, pk, name);
    if found.Failure? {
      return Failure(found.error);
    }
    var id: TaskId;
    match found.value {
      case Stored(stored) =>
        store.Finish(stored, Some(user));
        id := stored;
      case Unsaved(taskName, taskType) =>
        if saved.None? {
          return Failure(NoProcess);
        }
        id := store.FinishNew(NewTask(saved.value, taskName, taskType), Some(user));
    }
    var _ := store.StartNextTasks(id, edges, None);
    r := Success(id);
  }

  /**
   * `TaskViewMixin.post`: after the parent view has handled the form (its response is
   * `response`, `saved` the process it saved if any), create the task once and return
   * the parent's response unchanged. The final rows and log are exactly those
   * `CreateTask` leaves.
   */
  method Post<R>(store: TaskStore, edges: seq<(Node, Node)>, name: string, pk: Option<TaskId>,
                 saved: Option<ProcessId>, user: User, response: R)
    returns (r: Result<R, ViewError>)
    requires store.Valid()
    modifies store
    ensures store.Valid()
    ensures r.Failure? <==> (pk.Some? && !IsOpenTask(old(store.rows), pk.value, name))
                            || (pk.None? && saved.None?)
    ensures r.Failure? ==> store.rows == old(store.rows) && store.log == old(store.log)
    ensures r.Failure? ==> r.error == if pk.Some? then NotFound else NoProcess
    ensures r.Success? ==> r.value == response
    ensures r.Success? ==>
              var id := if pk.Some? then pk.value else old(|store.rows|);
              var first := if pk.Some? then old(|store.rows|) else old(|store.rows|) + 1;
              && id < first <= |store.rows|
              && store.rows[id].completed && store.rows[id].status == Succeeded
              && store.rows[id].completedBy == Some(user)
              && store.rows[first..] == Children(store.rows[id].process, NextNodes(edges, name), id)
    ensures r.Success? && pk.Some? ==>
              var id := pk.value;
              var row := old(store.rows)[id];
              && store.rows == old(store.rows)[id := FinishedRow(row, Some(user))]
                               + Children(row.process, NextNodes(edges, name), id)
              && store.log == old(store.log) + [Updated(id, FinishFields + ["modified"])]
                              + EnqueueRequests(NextNodes(edges, name), old(|store.rows|))
    ensures r.Success? && pk.None? ==>
              var id := old(|store.rows|);
              && store.rows == old(store.rows) + [AssignFinish(NewTask(saved.value, name, Some(Human)), Some(user))]
                               + Children(saved.value, NextNodes(edges, name), id)
              && store.log == old(store.log) + EnqueueRequests(NextNodes(edges, name), id + 1)
  {
    var created := CreateTask(store, edges, name, pk, saved, user);
    if created.Failure? {
      return Failure(created.error);
    }
    if pk.Some? {
      FinishPersists(old(store.rows)[pk.value], Some(user));
    }
    r := Success(response);
  }
}
