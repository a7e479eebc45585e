# A verified model of the galahad / joeflow workflow core

galahad (and its successor, joeflow) runs long business processes as directed graphs. A
process class lists its `edges`, which are (start, end) pairs of nodes. A node is either a
human task, served by a task view that waits for a form to be posted, or a machine task, a
callable that the task queue runs. Every run of a node is a `Task` row. Each task records
its parent tasks, so the rows of a process form an append-only parent/child graph. An
administrator can override a process: every active task is finished, and the graph is
re-entered at nodes the administrator chooses.

This project models that core in Dafny and proves properties of the model:

- `ProcessGraph` (`process_graph.dfy`) covers the static graph: node types, the node set,
  `get_nodes`, `get_node`, `get_next_nodes` and the `urls` routes. It also covers the
  metaclass step that names and types each node object.
- `GraphStyle` (`graph_style.dfy`) has the string rules of the graphs: the underscore
  replacement of `NoDashDiGraph`, node styles, override-task labels and a task's link.
- `Tasks` (`tasks.dfy`) models task rows and their lifecycle:
  - the `update_fields` rule of `Task.save` and `Process.save`;
  - the assignments made by `finish`, `fail` and `enqueue`;
  - `TaskStore`, a class standing for the task table, with `start_next_tasks`.
- `ViewSupport` (`view_support.dfy`) holds what both view files share: template names,
  task references and view errors.
- `GalahadViews` (`galahad_views.dfy`) has galahad's template names, `get_task`, `post`
  and the manual-override view. `JoeflowViews` (`joeflow_views.dfy`) has joeflow's
  template names, `get_task`, `create_task` and `post`.
- `Text` (`text.dfy`) and `Wrappers` (`wrappers.dfy`) are helpers: Python's `str.strip`,
  `"".join`, `'%s'` formatting, and the Option and Result types.

`TaskStore` models the database. Its `rows` are the task table, and a row's position is
its primary key. Its `log` records, in order, each save made with `update_fields` and each
queue request of a transaction. Inserts and parent links change `rows` without a log entry. A lifecycle method works in two steps, as the source does:

1. It assigns fields on the in-memory task (`AssignFinish`, `AssignFail`, `AssignEnqueue`).
2. It saves. A save with `update_fields` writes only the listed columns (`WriteFields`).

So the model shows what actually gets stored. `fail()` sets `completed` on the object but
leaves `'completed'` out of `update_fields`, so the stored row keeps its old completion
(`Tasks.FailPersists`).

Two details of the code are easy to misread:

- Routes: create views are routed at `'{name}/'`, other task views at `'{name}/<pk>/'`.
  The override route `'<pk>/override'` has no trailing slash.
- Enqueueing: a child is enqueued when `callable(node)` holds. That test is on the node
  object, not on its node type.

## Model

| member | source | states |
|---|---|---|
| `GraphStyle.Quote` | galahad/models.py:28-36 | the `replace('_', ' ')` step maps each character through `QuoteChar`, keeping the length; its properties are the next two rows |
| `GraphStyle.QuoteNormal` | galahad/models.py:28-36 | after the underscore replacement no underscore is left, and replacing again changes nothing |
| `GraphStyle.QuoteAppend` | galahad/models.py:28-36 | the underscore replacement distributes over concatenation |
| `ProcessGraph.RegisterNodes` | galahad/models.py:42-58 | each endpoint object bound to a class attribute gets `node_name` = the last such attribute name and `node_type` = HUMAN exactly for task views; other objects keep their attributes; nothing else is registered |
| `ProcessGraph.RegisteredGraphTyped` | galahad/models.py:49-55 | in the resolved graph, every node's type is HUMAN iff it is a task view, and its name is an attribute name bound to it |
| `ProcessGraph.Endpoints` | galahad/models.py:45-47 | the node set contains both ends of every edge; the converse is `EndpointsExactly` |
| `ProcessGraph.Resolve` | galahad/models.py:49-55 | the edges with each object replaced by the node it became, one resolved edge per edge; its properties are `RegisteredGraphTyped` |
| `ProcessGraph.EndpointsExactly` | galahad/models.py:100-103 | a node is in the node set iff it is the start or the end of some edge |
| `ProcessGraph.GetNodes` | galahad/models.py:100-105 | every node of the node set is yielded exactly once, paired with its own `node_name`, and only such nodes are yielded |
| `ProcessGraph.Urls` | galahad/models.py:129-142 | one route per task-view node (`'{name}/'` for create views, `'{name}/<pk>/'` otherwise), none for other nodes, then `'<pk>/'` (detail) and `'<pk>/override'` as the last two |
| `ProcessGraph.NodeRoutes` | galahad/models.py:130-136 | the loop of `urls`: every route it builds is a node route for a task view of the graph, every task-view node among the pairs gets one, and no view is routed twice |
| `ProcessGraph.GetNode` | galahad/models.py:145-147 | returns a node of the graph with the requested name; fails with `KeyError(name)` exactly when no node has that name |
| `ProcessGraph.NextNodes` | galahad/models.py:150-153 | at most one successor per edge; what it yields is fixed by the four rows that follow |
| `ProcessGraph.NextNodesAppend` | galahad/models.py:150-153 | the successors over `a + b` are the successors over `a` followed by those over `b`: edge order is kept |
| `ProcessGraph.NextNodesSingle` | galahad/models.py:151-153 | one edge yields its end exactly when its start has the asked-for name, else nothing; with the previous row this fixes the result, duplicates included |
| `ProcessGraph.NextNodesMember` | galahad/models.py:150-153 | `n` is a successor iff some edge leads from a node of that name to `n` |
| `ProcessGraph.NextNodesAreNodes` | galahad/models.py:150-153 | every successor is a node of the graph |
| `GraphStyle.GraphNodeStyle` | galahad/models.py:184-186 | the style starts with `'filled'` and is longer exactly for human nodes |
| `GraphStyle.InstanceNodeStyle` | galahad/models.py:225-230 | the style starts with `'filled'` and ends with `', bold'` exactly when the task is not completed; see the next two rows |
| `GraphStyle.InstanceNodeStyleInjective` | galahad/models.py:225-230 | an instance-graph style string determines both the node type and the completion |
| `GraphStyle.InstanceStyleExtendsGraphStyle` | galahad/models.py:184-186 | a task node's style is its class-graph node style (`'filled'`, `', rounded'` if human), plus `', bold'` exactly when the task is not completed |
| `GraphStyle.OverrideLabel` | galahad/models.py:236 | the label is `'manual_override_'` followed by the decimal key |
| `GraphStyle.OverrideLabelInjective` | galahad/models.py:236-241 | different override tasks get different labels |
| `GraphStyle.QuotedOverrideLabel` | galahad/models.py:236 | after the underscore replacement, a label reads `'manual override <pk>'` |
| `Text.NatToString` | galahad/models.py:236 | `'%s' % pk`: at least one character, all decimal digits; injective by the next row |
| `Text.NatToStringInjective` | galahad/models.py:236 | the decimal rendering of a key is injective |
| `Tasks.TaskSave` | galahad/models.py:396-406 | a task with a key and no `update_fields` raises; with `update_fields`, `'modified'` is appended; a task without a key is saved as given |
| `Tasks.ProcessSave` | galahad/models.py:269-277 | passes no `update_fields` on as none and otherwise adds one field exactly when the process has a key; its relation to the task save is the next row |
| `Tasks.SavesAgree` | galahad/models.py:269-277 | `Process.save` appends `'modified'` under the same condition but never raises; it agrees with the task save wherever that succeeds; the list keeps its old fields and ends in `'modified'` |
| `Tasks.WriteFields` | galahad/models.py:396-406 | a save with `update_fields` never touches the process or the parent links, and with no listed model field it leaves the row as it was; the rows `FinishPersists`, `FailPersists` and `EnqueuePersists` apply it |
| `Tasks.TaskStore.Save` | galahad/models.py:396-406 | a save of a stored task fails and changes nothing without `update_fields`; otherwise it writes exactly the listed columns and logs the fields with `'modified'` |
| `Tasks.TaskStore.Insert` | galahad/models.py:431-432 | saving a task without a key appends it as a new row with the next key |
| `Tasks.AssignFinish` | galahad/models.py:421-424 | `finish(user)` sets status SUCCEEDED, completed, completed-by `user`, and nothing else |
| `Tasks.FinishPersists` | galahad/models.py:425-430 | for a stored task every assignment of `finish` is written |
| `Tasks.TaskStore.Finish` | galahad/models.py:421-430 | the stored row becomes the finished row; the update of `status`, `completed`, `completed_by_user`, `modified` is logged; no other row changes |
| `Tasks.TaskStore.FinishNew` | galahad/models.py:431-432 | finishing an unsaved task inserts it finished |
| `Tasks.AssignFail` | galahad/models.py:434-439 | `fail()` sets status FAILED, completed, exception = last traceback line stripped, stack trace = all lines joined, and nothing else |
| `Tasks.FailPersists` | galahad/models.py:440 | the stored row gets status, exception and stack trace but keeps its completion, since `'completed'` is not in `update_fields` |
| `Tasks.FailExceptionFromStacktrace` | galahad/models.py:437-439 | the stored stack trace ends with the last traceback line, and the exception is that line stripped |
| `Tasks.TaskStore.Fail` | galahad/models.py:434-440 | the stored row becomes the failed row and the save is logged |
| `Text.Strip` | galahad/models.py:438 | `strip()` removes only whitespace around the text and leaves no whitespace at either end |
| `Text.StripIdempotent` | galahad/models.py:438 | stripping twice is stripping once |
| `Text.Join` | galahad/models.py:439 | `"".join(tb)` is at least as long as the last line; its properties are the next two rows |
| `Text.JoinAppend` | galahad/models.py:439 | joining lines distributes over concatenation of the line lists |
| `Text.JoinEndsWithLast` | galahad/models.py:439 | the joined text ends with the last line |
| `Tasks.AssignEnqueue` | galahad/models.py:457-460 | `enqueue()` sets status SCHEDULED, clears completion, empties exception and stack trace, and sets nothing else |
| `Tasks.EnqueuePersists` | galahad/models.py:461-466 | for a stored task every assignment of `enqueue` is written |
| `Tasks.TaskStore.Enqueue` | galahad/models.py:457-472 | the row is reset to scheduled, the save is logged, then the queue dispatch requested on commit |
| `Tasks.EnqueueFreshChild` | galahad/models.py:495-501 | enqueueing a child that `start_next_tasks` just created leaves its row as it is |
| `Tasks.Children` | galahad/models.py:490-499 | one child per node, in order, each with the node's name and type, scheduled, uncompleted, with the parent as its only parent |
| `Tasks.EnqueueRequestsExactly` | galahad/models.py:500-501 | an enqueue-on-commit request is made for a new child iff its node is callable, and no other request is made |
| `Tasks.TaskStore.Create` | galahad/models.py:495-498 | `task_set.create` appends a new default task with the given name and type |
| `Tasks.TaskStore.AddParent` | galahad/models.py:499 | adds one parent, always an older task, to a task's parent set |
| `Tasks.TaskStore.SetParents` | galahad/views.py:104 | `parent_task_set.set(active)` replaces one task's parent set, all older tasks, and changes nothing else |
| `Tasks.TaskStore.StartChild` | galahad/models.py:495-501 | one turn of the loop: appends the node's child with the task as its only parent, and logs an enqueue request exactly when the node is callable |
| `Tasks.TaskStore.StartNextTasks` | galahad/models.py:474-503 | uses `next_nodes`, or by default the successors of the task's node; appends exactly the children of those nodes in order, linked to the task, and one enqueue request per callable node; returns the new keys in creation order; changes no existing row |
| `GraphStyle.AbsoluteUrl` | galahad/models.py:408-415 | a completed task has no link; otherwise its link is what reverse-resolving `'<namespace>:<node_name>'` gives; the next three rows tie it to the lifecycle |
| `GraphStyle.FinishedTaskHasNoLink` | galahad/models.py:408-410 | once `finish` is saved, the task has no link |
| `GraphStyle.FailedTaskKeepsLink` | galahad/models.py:408-415 | a task open before `fail` keeps its link after it, because `fail` does not save `completed` (line 440) |
| `GraphStyle.EnqueuedTaskHasLink` | galahad/models.py:408-415 | after `enqueue` is saved, the task links to its view again |
| `GalahadViews.GetTemplateNames` | galahad/views.py:14-27 | the per-node name comes first, the inherited names follow unchanged and in order, the `'<app>/process<suffix>.html'` fallback comes last, and the length is the inherited length plus 2 |
| `GalahadViews.GetTask` | galahad/views.py:37-48 | with a key, succeeds exactly for a stored task with that key, this node name and no completion, else not found; without a key, returns a fresh task with this node name and no type |
| `GalahadViews.Post` | galahad/views.py:54-61 | fails and changes nothing when the task is not found, or when a new task has no process because the create form saved none (the insert violates the non-null process column); otherwise finishes the task with no user, then appends one child per default successor with the task as parent, and returns the parent view's response |
| `GalahadViews.GetTaskChoices` | galahad/views.py:74-76 | yields `(name, name)` pairs, each name of a process node exactly once, and no other name |
| `GalahadViews.GetNextTaskNodes` | galahad/views.py:89-92 | maps each chosen name, in order, to a node of that name; fails exactly when some name is not a node name, with the `KeyError` of the first unknown name |
| `GalahadViews.ActiveTasks` | galahad/views.py:98 | exactly the uncompleted tasks of the process, newest first (the default ordering) |
| `GalahadViews.FinishEach` | galahad/views.py:99-100 | every listed task is finished, one save logged each in order; no other row changes |
| `GalahadViews.FormValid` | galahad/views.py:94-107 | an unknown chosen name changes nothing; otherwise active tasks are finished, then the `manual_override` task parented by them is created and finished, then one task per chosen node is started under it |
| `GalahadViews.CreateOverride` | galahad/views.py:101-105 | appends the `manual_override` task, parented by the active tasks and already finished, and logs its one save |
| `GalahadViews.Override` | galahad/views.py:98-106 | once all names resolve, the store ends up exactly as an override describes (old active tasks finished, override task, re-entered tasks, events in order) |
| `GalahadViews.OverrideCompletesActive` | galahad/views.py:98-105 | after an override no task of the process is left uncompleted among the old ones; the override task is completed, and its parents are exactly the previously active tasks |
| `GalahadViews.OverrideReentersChosen` | galahad/views.py:101-106 | after an override, the new tasks carry the chosen names in order, are uncompleted, and have the override task as their sole parent |
| `JoeflowViews.GetTemplateNames` | joeflow/views.py:14-24 | `'<app>/<model>_<name>.html'` first, the inherited names next in order, `'<app>/process<suffix>.html'` last |
| `JoeflowViews.GetTask` | joeflow/views.py:34-40 | with a key, succeeds exactly for a stored task with that key, this name and no completion; without one, returns a new unsaved HUMAN task with this name |
| `JoeflowViews.CreateTask` | joeflow/views.py:52-57 | fails and changes nothing when the task is not found, or when a new task's process is missing (`self.object.pk` raises); otherwise finishes the task as the requesting user, then starts its default successors under it, and returns that same task |
| `JoeflowViews.Post` | joeflow/views.py:46-50 | fails under the same conditions as `create_task`, changing nothing; otherwise creates the task once: the final rows and log are exactly those `create_task` leaves (the task finished by the user, its successors appended and their queue requests, no other change), and the parent view's response is returned unchanged |

## Left out

- Graph rendering is left out: `get_graph`, the graph drawing of `get_instance_graph`,
  `get_graph_svg`, `get_instance_graph_svg`, the layout binary and SVG output. They depend
  on an external library and binary. Only their style and label rules and the underscore
  replacement are modelled.
- GraphStyle.Quote: models only the `replace('_', ' ')` step of `NoDashDiGraph._quote` and
  `_quote_edge`. The DOT quoting by `gv.lang.quote` / `quote_edge` is left out: wrapping in
  double quotes, escaping `"`, and splitting `node:port`. It belongs to the graphviz
  library. Idempotence (`QuoteNormal`) and distribution over concatenation (`QuoteAppend`)
  are proved of the replacement only. They do not hold of the full DOT quoting.
- The task queue and commit hooks are not modelled. Celery's `apply_async` and
  `transaction.on_commit` become `Dispatch` and `EnqueueOnCommit` events in the store's log.
- The ORM is not modelled: querysets, `GenericForeignKey`/`ContentType`, `process_subclasses`
  and `@transaction.atomic`. The table is an in-memory sequence and each method is atomic.
  A view that raises changes nothing, which stands for the transaction's rollback.
- Primary keys are row positions. The real keys start at 1, which does not affect the model.
- Timestamps are not modelled. `completed` is a flag, and the `modified` column is
  not modelled, although `'modified'` does appear in the logged `update_fields`.
- Tasks.TaskStore.Enqueue: the `countdown` and `eta` arguments of `enqueue` are not modelled,
  and the `Dispatch` event does not carry them. The only caller in the core,
  `on_commit(task.enqueue)`, passes neither.
- `Tasks.TaskStore.Fail` requires a non-empty traceback. `traceback.format_exception` is
  outside the model; it always returns at least one line, and the lines are an input.
- URL resolution is outside the model. `reverse` is a function parameter of `AbsoluteUrl`,
  and `path()` entries become `Route` values.
- `get_url_namespace` (the lower-cased class name) is not modelled, and neither are
  `Process.get_absolute_url` or `get_override_url`. They only wrap URL resolution.
- `Process.finish` is left out: the process record's own fields are not modelled. Its save
  rule is `Tasks.ProcessSave`.
- The template engine, form classes, `PermissionRequiredMixin` and translated strings are
  framework plumbing and are left out.
- What the parent view's `post` / `form_valid` does to the process record is left out. Its
  response is passed around as an opaque value.
- Join-style nodes with their own `create_task` are left out; their code is not part of this
  model. Only the default creation path is modelled. joeflow's `OverrideView`, `forms.OverrideForm`,
  `RevisionMixin` and `joeflow.models` are not part of this model either. joeflow's task
  model is taken to be galahad's Task, with `name` and `type` as `node_name` and `node_type`.
- `ProcessGraph.GetNodes`: Python set order is unspecified, so the model picks nodes in an
  arbitrary order. As a result, `GetNode` only promises some node with the name asked for
  when several nodes share it.
- ProcessGraph.RegisterNodes: class attributes are modelled as (name, object) pairs of
  hashable objects. Unhashable attribute values, which the `TypeError` handler skips, are
  simply absent. `getattr(klass, name)` is taken to be the bound object itself. The back
  reference `node.process_cls = klass` is not recorded: there are no class objects in the
  model.
- `ProcessGraph.NextNodes`: `self.node` is taken to be the node whose name is the task's
  `node_name`, which registration guarantees. The model therefore matches successors by
  that name.
- GalahadViews.Post, JoeflowViews.CreateTask, JoeflowViews.Post: the parent view's form
  handling is reduced to its result, the saved process or none. For an update view, the
  source finishes the task even when the form is invalid, because `self.object` is already
  the task's process; the model does the same.
- `GalahadViews.Post` and `JoeflowViews.CreateTask`: for a stored task, the view's object
  is the task's own process (`get_object` returns it). Children are therefore created in
  that process. Assigning `task.process` is not persisted by `finish`.
- `GalahadViews.GetNextTaskNodes`: the source's generator runs lazily inside the
  transaction. The model resolves all names first. A `KeyError` rolls the transaction back
  in both cases, so the outcome is the same.
- `GalahadViews.ActiveTasks` takes "newest first" to mean descending key, assuming
  `created` grows with the key.
- `Text.IsSpace` covers the characters Python's `str.isspace` accepts. `str.strip`'s
  optional `chars` argument is not used by the source and is not modelled.
