/**
 * What the galahad and joeflow views (galahad/views.py, joeflow/views.py) have in
 * common: the two template names they add, the task a task view works on, and the
 * errors a view raises.
 */
module ViewSupport {
  import opened Wrappers
  import opened Text
  import opened ProcessGraph
  import opened Tasks

  /** `'<app_label>/<model_name>_<node_name>.html'`. */
  function NodeTemplate(appLabel: string, modelName: string, nodeName: Option<string>): string
  {
    appLabel + "/" + modelName + "_" + PyStr(nodeName) + ".html"
  }

  /** `'<app_label>/process<template_name_suffix>.html'`. */
  function ProcessTemplate(appLabel: string, suffix: string): string
  {
    appLabel + "/process" + suffix + ".html"
  }

  /** The task a view works on: a stored row, or a new task not yet saved. */
  datatype TaskRef = Stored(id: TaskId) | Unsaved(nodeName: string, nodeType: Option<NodeType>)

  /**
   * The HTTP 404 of `get_object_or_404`, the `KeyError` of an unknown node name, or the
   * failure of a create view whose form saved no process (`self.object` is `None`).
   */
  datatype ViewError = NotFound | UnknownNode(name: string) | NoProcess

  /** Row `id` exists, belongs to node `nodeName` and is not completed. */
  predicate IsOpenTask(rows: seq<Task>, id: TaskId, nodeName: string)
  {
    id < |rows| && rows[id].nodeName == nodeName && !rows[id].completed
  }
}
