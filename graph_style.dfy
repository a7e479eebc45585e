/**
 * The string rules behind the process graphs (galahad/models.py): the underscore
 * replacement `NoDashDiGraph` applies to identifiers before quoting them, the node
 * styles of the class graph and of an instance graph, the labels of override tasks,
 * and the link a task node carries.
 */
module GraphStyle {
  import opened Wrappers
  import opened Text
  import opened ProcessGraph
  import opened Tasks

  function QuoteChar(c: char): char
  {
    if c == '_' then ' ' else c
  }

  /**
   * The first step of `NoDashDiGraph._quote` / `_quote_edge`: every underscore becomes a
   * space. The DOT quoting the library applies afterwards is not modelled.
   */
  function Quote(id: string): (r: string)
    ensures |r| == |id|
    ensures forall k :: 0 <= k < |id| ==> r[k] == QuoteChar(id[k])
  {
    seq(|id|, k requires 0 <= k < |id| => QuoteChar(id[k]))
  }

  /** After the replacement no underscore is left, and replacing again changes nothing. */
  lemma QuoteNormal(id: string)
    ensures '_' !in Quote(id)
    ensures Quote(Quote(id)) == Quote(id)
  {
    var q := Quote(id);
    assert forall k :: 0 <= k < |q| ==> q[k] != '_';
  }

  /** The replacement works character by character, so it distributes over concatenation. */
  lemma QuoteAppend(a: string, b: string)
    ensures Quote(a + b) == Quote(a) + Quote(b)
  {
    assert forall k :: 0 <= k < |a + b| ==> Quote(a + b)[k] == (Quote(a) + Quote(b))[k];
  }

  /** The class graph (`get_graph`): `'filled'`, plus `', rounded'` for human nodes. */
  function GraphNodeStyle(t: NodeType): (r: string)
    ensures |r| >= 6 && r[..6] == "filled"
    ensures t == Human <==> |r| > 6
  {
    if t == Human then "filled, rounded" else "filled"
  }

  /**
   * The instance graph (`get_instance_graph`): `'filled'`, then `', rounded'` for a human
   * node, then `', bold'` for a task that is not completed.
   */
  function InstanceNodeStyle(t: NodeType, completed: bool): (r: string)
    ensures |r| >= 6 && r[..6] == "filled"
    ensures !completed <==> r[|r| - 6..] == ", bold"
  {
    var style := "filled";
    var style := if t == Human then style + ", rounded" else style;
    assert style[|style| - 6] != ',' && (", bold")[0] == ',';
    if !completed then style + ", bold" else style
  }

  /** The style of a task node tells both its node type and whether it is completed. */
  lemma InstanceNodeStyleInjective(t1: NodeType, c1: bool, t2: NodeType, c2: bool)
    requires InstanceNodeStyle(t1, c1) == InstanceNodeStyle(t2, c2)
    ensures t1 == t2 && c1 == c2
  {
    var s1, s2 := InstanceNodeStyle(t1, c1), InstanceNodeStyle(t2, c2);
    assert |s1| == 6 + (if t1 == Human then 9 else 0) + (if c1 then 0 else 6);
    assert |s2| == 6 + (if t2 == Human then 9 else 0) + (if c2 then 0 else 6);
  }

  /**
   * A completed task is drawn in the style of its node in the class graph; an active one
   * in that style with `', bold'` appended.
   */
  lemma InstanceStyleExtendsGraphStyle(t: NodeType, completed: bool)
    ensures InstanceNodeStyle(t, completed) ==
            GraphNodeStyle(t) + (if completed then "" else ", bold")
  {
  }

  /** `'manual_override_%s' % task.pk`. */
  function OverrideLabel(pk: nat): (r: string)
    ensures |r| == 16 + |NatToString(pk)|
    ensures r[..16] == "manual_override_"
    ensures r[16..] == NatToString(pk)
  {
    "manual_override_" + NatToString(pk)
  }

  /** Two override tasks never share a graph node: labels differ for different keys. */
  lemma OverrideLabelInjective(a: nat, b: nat)
    requires OverrideLabel(a) == OverrideLabel(b)
    ensures a == b
  {
    assert OverrideLabel(a)[16..] == OverrideLabel(b)[16..];
    NatToStringInjective(a, b);
  }

  /** The label after the replacement: the underscores of the prefix become spaces, the digits stay. */
  lemma QuotedOverrideLabel(pk: nat)
    ensures Quote(OverrideLabel(pk)) == "manual override " + NatToString(pk)
  {
    var prefix, d := "manual_override_", NatToString(pk);
    QuoteAppend(prefix, d);
    QuoteDigits(d);
    QuotedPrefix(prefix);
  }

  /** Digits have no underscore, so the replacement leaves them alone. */
  lemma QuoteDigits(d: string)
    requires forall k :: 0 <= k < |d| ==> '0' <= d[k] <= '9'
    ensures Quote(d) == d
  {
  }

  /** The fixed part of the label, as drawn. */
  lemma QuotedPrefix(prefix: string)
    requires prefix == "manual_override_"
    ensures Quote(prefix) == "manual override "
  {
    var q := Quote(prefix);
    forall k | 0 <= k < 16 ensures q[k] == "manual override "[k] {
      assert q[k] == QuoteChar(prefix[k]);
    }
  }

  /**
   * `Task.get_absolute_url`: nothing for a completed task; otherwise the URL that
   * reverse-resolving `'<namespace>:<node_name>'` with the task's key gives, or nothing
   * when there is no such route. `reverse` stands for the URL resolver.
   */
  function AbsoluteUrl(completed: bool, namespace: string, nodeName: string, pk: nat,
                       reverse: (string, nat) -> Option<string>): (r: Option<string>)
    ensures completed ==> r == None
    ensures !completed ==> r == reverse(namespace + ":" + nodeName, pk)
  {
    if completed then None else reverse(namespace + ":" + nodeName, pk)
  }
  /** Once `finish` has been saved, the task's node in the instance graph carries no link. */
  lemma FinishedTaskHasNoLink(row: Task, user: Option<User>, namespace: string, pk: nat,
                              reverse: (string, nat) -> Option<string>)
    ensures AbsoluteUrl(FinishedRow(row, user).completed, namespace, row.nodeName, pk, reverse) == None
  {
  }

  /**
   * `fail` does not save `completed`, so a task that was open before it failed still
   * links to its view, under the same node name.
   */
  lemma FailedTaskKeepsLink(row: Task, traceback: seq<string>, namespace: string, pk: nat,
                            reverse: (string, nat) -> Option<string>)
    requires |traceback| > 0 && !row.completed
    ensures var failed := FailedRow(row, traceback);
            AbsoluteUrl(failed.completed, namespace, failed.nodeName, pk, reverse)
            == reverse(namespace + ":" + row.nodeName, pk)
  {
  }

  /** `enqueue` saves the task as not completed, so it links to its view again. */
  lemma EnqueuedTaskHasLink(row: Task, namespace: string, pk: nat, reverse: (string, nat) -> Option<string>)
    ensures var queued := EnqueuedRow(row);
            AbsoluteUrl(queued.completed, namespace, queued.nodeName, pk, reverse)
            == reverse(namespace + ":" + row.nodeName, pk)
  {
  }

}
