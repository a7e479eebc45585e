/**
 * The static graph of a process class (galahad/models.py): nodes, the `edges` list of
 * (start, end) pairs, the node set, successor lookup, name lookup, the URL routes derived
 * from the human nodes, and the metaclass step that names and types every node.
 */
module ProcessGraph {
  import opened Wrappers

  /** `Task.HUMAN` / `Task.MACHINE`. */
  datatype NodeType = Human | Machine

  /**
   * What a node attribute of a process class is: an instance of a task view
   * (`TaskViewMixin`, possibly also a `BaseCreateView`), a plain callable (a machine
   * task), or some other object.
   */
  datatype Impl = TaskView(createView: bool) | Callable | Other

  /** `callable(node)`: only plain callables are handed to the task queue. */
  predicate IsCallable(impl: Impl)
  {
    impl.Callable?
  }

  /** The metaclass's choice: HUMAN for task views, MACHINE for everything else. */
  function TypeFor(impl: Impl): NodeType
  {
    if impl.TaskView? then Human else Machine
  }

  /** A node object once the metaclass has given it its `node_name` and `node_type`. */
  datatype Node = Node(name: string, nodeType: NodeType, impl: Impl)

  /** `KeyError` raised by a dictionary lookup. */
  datatype LookupError = KeyError(key: string)

  // ---------------------------------------------------------------------------
  // The node set: `nodes |= set(edge)` over all edges
  // ---------------------------------------------------------------------------

  /** The union of the endpoints of `edges`. */
  function Endpoints<N>(edges: seq<(N, N)>): (r: set<N>)
    ensures forall i :: 0 <= i < |edges| ==> edges[i].0 in r && edges[i].1 in r
  {
    if edges == [] then {}
    else Endpoints(edges[..|edges| - 1]) + {edges[|edges| - 1].0, edges[|edges| - 1].1}
  }

  ghost predicate IsEndpoint<N>(edges: seq<(N, N)>, n: N)
  {
    exists i :: 0 <= i < |edges| && (edges[i].0 == n || edges[i].1 == n)
  }

  /** A node is in the node set exactly when it is the start or the end of some edge. */
  lemma {:induction false} EndpointsExactly<N>(edges: seq<(N, N)>, n: N)
    ensures n in Endpoints(edges) <==> IsEndpoint(edges, n)
    decreases |edges|
  {
    if edges != [] {
      var init := edges[..|edges| - 1];
      EndpointsExactly(init, n);
      if IsEndpoint(init, n) {
        var i :| 0 <= i < |init| && (init[i].0 == n || init[i].1 == n);
        assert edges[i] == init[i];
      }
      if IsEndpoint(edges, n) && n !in {edges[|edges| - 1].0, edges[|edges| - 1].1} {
        var i :| 0 <= i < |edges| && (edges[i].0 == n || edges[i].1 == n);
        assert i < |init| && init[i] == edges[i];
      }
    }
  }

  /** Some node of the graph carries the name `name`. */
  ghost predicate KnownName(edges: seq<(Node, Node)>, name: string)
  {
    exists n :: n in Endpoints(edges) && n.name == name
  }

  /**
   * `Process.get_nodes`: one `(node_name, node)` pair per distinct endpoint. The order of
   * a Python set is unspecified, so the model picks the nodes in an arbitrary order.
   */
  method GetNodes(edges: seq<(Node, Node)>) returns (pairs: seq<(string, Node)>)
    ensures forall k :: 0 <= k < |pairs| ==> pairs[k].0 == pairs[k].1.name
    ensures forall k :: 0 <= k < |pairs| ==> pairs[k].1 in Endpoints(edges)
    ensures forall n :: n in Endpoints(edges) ==> exists k :: 0 <= k < |pairs| && pairs[k].1 == n
    ensures forall j, k :: 0 <= j < k < |pairs| ==> pairs[j].1 != pairs[k].1
  {
    var nodes: set<Node> := {};
    var i := 0;
    while i < |edges|
      invariant 0 <= i <= |edges|
      invariant nodes == Endpoints(edges[..i])
    {
      assert edges[..i + 1][..i] == edges[..i];
      nodes := nodes + {edges[i].0, edges[i].1};
      i := i + 1;
    }
    assert edges[..i] == edges;
    pairs := [];
    var rest := nodes;
    while rest != {}
      invariant rest <= nodes
      invariant forall k :: 0 <= k < |pairs| ==> pairs[k].0 == pairs[k].1.name
      invariant forall k :: 0 <= k < |pairs| ==> pairs[k].1 in nodes && pairs[k].1 !in rest
      invariant forall n :: n in nodes && n !in rest ==> exists k :: 0 <= k < |pairs| && pairs[k].1 == n
      invariant forall j, k :: 0 <= j < k < |pairs| ==> pairs[j].1 != pairs[k].1
      decreases rest
    {
      var n :| n in rest;
      ghost var prev := pairs;
      pairs := pairs + [(n.name, n)];
      assert forall k :: 0 <= k < |prev| ==> pairs[k] == prev[k];
      assert pairs[|prev|].1 == n;
      rest := rest - {n};
    }
  }

  /**
   * `Process.get_node(name)`, i.e. `dict(get_nodes())[name]`: a node with that name, or
   * `KeyError` when no node has it.
   */
  method GetNode(edges: seq<(Node, Node)>, name: string) returns (r: Result<Node, LookupError>)
    ensures r.Failure? <==> !KnownName(edges, name)
    ensures r.Failure? ==> r.error == KeyError(name)
    ensures r.Success? ==> r.value in Endpoints(edges) && r.value.name == name
  {
    var pairs := GetNodes(edges);
    var byName: map<string, Node> := map[];
    for i := 0 to |pairs|
      invariant forall key :: key in byName ==> byName[key] in Endpoints(edges) && byName[key].name == key
      invariant forall k :: 0 <= k < i ==> pairs[k].0 in byName
    {
      byName := byName[pairs[i].0 := pairs[i].1];
    }
    if name in byName {
      r := Success(byName[name]);
    } else {
      r := Failure(KeyError(name));
      forall n | n in Endpoints(edges) ensures n.name != name {
        var k :| 0 <= k < |pairs| && pairs[k].1 == n;
        assert pairs[k].0 in byName;
      }
    }
  }

  // ---------------------------------------------------------------------------
  // Successors: `get_next_nodes`
  // ---------------------------------------------------------------------------

  /**
   * `Process.get_next_nodes(prev)`: the `end` of every edge whose `start` has the name of
   * `prev`, in edge order, duplicates kept.
   */
  function NextNodes(edges: seq<(Node, Node)>, prevName: string): (r: seq<Node>)
    ensures |r| <= |edges|
  {
    if edges == [] then []
    else (if edges[0].0.name == prevName then [edges[0].1] else []) + NextNodes(edges[1..], prevName)
  }

  /** Successors of a concatenation are the successors of each part, in order. */
  lemma {:induction false} NextNodesAppend(a: seq<(Node, Node)>, b: seq<(Node, Node)>, prevName: string)
    ensures NextNodes(a + b, prevName) == NextNodes(a, prevName) + NextNodes(b, prevName)
    decreases |a|
  {
    if a != [] {
      assert (a + b)[0] == a[0] && (a + b)[1..] == a[1..] + b;
      NextNodesAppend(a[1..], b, prevName);
    } else {
      assert a + b == b;
    }
  }

  /** A single edge contributes its end exactly when its start carries the name. */
  lemma NextNodesSingle(e: (Node, Node), prevName: string)
    ensures NextNodes([e], prevName) == if e.0.name == prevName then [e.1] else []
  {
    assert [e][1..] == [];
  }

  /** `n` is a successor exactly when some edge leads from a node named `prevName` to `n`. */
  lemma {:induction false} NextNodesMember(edges: seq<(Node, Node)>, prevName: string, n: Node)
    ensures n in NextNodes(edges, prevName) <==>
            exists i :: 0 <= i < |edges| && edges[i].0.name == prevName && edges[i].1 == n
    decreases |edges|
  {
    if edges != [] {
      var tail := edges[1..];
      NextNodesMember(tail, prevName, n);
      if exists i :: 0 <= i < |tail| && tail[i].0.name == prevName && tail[i].1 == n {
        var i :| 0 <= i < |tail| && tail[i].0.name == prevName && tail[i].1 == n;
        assert edges[i + 1] == tail[i];
      }
      if exists i :: 0 <= i < |edges| && edges[i].0.name == prevName && edges[i].1 == n {
        var i :| 0 <= i < |edges| && edges[i].0.name == prevName && edges[i].1 == n;
        if i > 0 {
          assert tail[i - 1] == edges[i];
        }
      }
    }
  }

  /** Every successor is a node of the graph. */
  lemma NextNodesAreNodes(edges: seq<(Node, Node)>, prevName: string, n: Node)
    requires n in NextNodes(edges, prevName)
    ensures n in Endpoints(edges)
  {
    NextNodesMember(edges, prevName, n);
    EndpointsExactly(edges, n);
  }

  // ---------------------------------------------------------------------------
  // URL routes: `Process.urls`
  // ---------------------------------------------------------------------------

  /** The view a route dispatches to: a node's task view, the detail view, the override view. */
  datatype RouteView = NodeView(node: Node) | DetailView | OverrideView

  datatype Route = Route(path: string, view: RouteView, name: string)

  /** `'{name}/'` for a create view, `'{name}/<pk>/'` for any other task view. */
  function NodeRoutePath(name: string, createView: bool): string
  {
    if createView then name + "/" else name + "/<pk>/"
  }

  const DetailRoute: Route := Route("<pk>/", DetailView, "detail")
  const OverrideRoute: Route := Route("<pk>/override", OverrideView, "override")

  /** `route` is the route `urls` builds for a task-view node of the graph. */
  ghost predicate IsNodeRoute(edges: seq<(Node, Node)>, route: Route)
  {
    && route.view.NodeView?
    && route.view.node in Endpoints(edges)
    && route.view.node.impl.TaskView?
    && route.name == route.view.node.name
    && route.path == NodeRoutePath(route.name, route.view.node.impl.createView)
  }

  ghost predicate HasRouteFor(routes: seq<Route>, n: Node)
  {
    exists k :: 0 <= k < |routes| && routes[k].view == NodeView(n)
  }

  /**
   * `Process.urls`: one route per task-view node, none for other nodes, then the detail
   * and the override routes, always last and in that order.
   */
  method Urls(edges: seq<(Node, Node)>) returns (routes: seq<Route>)
    ensures |routes| >= 2
    ensures routes[|routes| - 2] == DetailRoute && routes[|routes| - 1] == OverrideRoute
    ensures forall k :: 0 <= k < |routes| - 2 ==> IsNodeRoute(edges, routes[k])
    ensures forall n :: n in Endpoints(edges) && n.impl.TaskView? ==> HasRouteFor(routes[..|routes| - 2], n)
    ensures forall j, k :: 0 <= j < k < |routes| - 2 ==> routes[j].view != routes[k].view
  {
    var pairs := GetNodes(edges);
    var nodeRoutes := NodeRoutes(edges, pairs);
    forall n | n in Endpoints(edges) && n.impl.TaskView? ensures HasRouteFor(nodeRoutes, n) {
      var j :| 0 <= j < |pairs| && pairs[j].1 == n;
    }
    routes := nodeRoutes + [DetailRoute, OverrideRoute];
    assert routes[..|routes| - 2] == nodeRoutes;
  }

  /** The loop of `Process.urls`: a route for each task-view node among `pairs`, in order. */
  method NodeRoutes(edges: seq<(Node, Node)>, pairs: seq<(string, Node)>) returns (nodeRoutes: seq<Route>)
    requires forall k :: 0 <= k < |pairs| ==> pairs[k].0 == pairs[k].1.name
    requires forall k :: 0 <= k < |pairs| ==> pairs[k].1 in Endpoints(edges)
    requires forall j, k :: 0 <= j < k < |pairs| ==> pairs[j].1 != pairs[k].1
    ensures forall k :: 0 <= k < |nodeRoutes| ==> IsNodeRoute(edges, nodeRoutes[k])
    ensures forall j :: 0 <= j < |pairs| && pairs[j].1.impl.TaskView? ==> HasRouteFor(nodeRoutes, pairs[j].1)
    ensures forall j, k :: 0 <= j < k < |nodeRoutes| ==> nodeRoutes[j].view != nodeRoutes[k].view
  {
    nodeRoutes := [];
    ghost var used: seq<nat> := [];
    for i := 0 to |pairs|
      invariant |used| == |nodeRoutes|
      invariant forall k :: 0 <= k < |used| ==> used[k] < i && nodeRoutes[k].view == NodeView(pairs[used[k]].1)
      invariant forall j, k :: 0 <= j < k < |used| ==> used[j] < used[k]
      invariant forall k :: 0 <= k < |nodeRoutes| ==> IsNodeRoute(edges, nodeRoutes[k])
      invariant forall j :: 0 <= j < i && pairs[j].1.impl.TaskView? ==> HasRouteFor(nodeRoutes, pairs[j].1)
    {
      var (name, node) := pairs[i];
      if node.impl.TaskView? {
        var route := Route(NodeRoutePath(name, node.impl.createView), NodeView(node), name);
        ghost var prev := nodeRoutes;
        nodeRoutes := nodeRoutes + [route];
        used := used + [i];
        forall j | 0 <= j < i && pairs[j].1.impl.TaskView? ensures HasRouteFor(nodeRoutes, pairs[j].1) {
          var k :| 0 <= k < |prev| && prev[k].view == NodeView(pairs[j].1);
          assert nodeRoutes[k] == prev[k];
        }
        assert nodeRoutes[|prev|].view == NodeView(pairs[i].1);
      }
    }
    forall j, k | 0 <= j < k < |nodeRoutes| ensures nodeRoutes[j].view != nodeRoutes[k].view {
      assert pairs[used[j]].1 != pairs[used[k]].1;
    }
  }

  // ---------------------------------------------------------------------------
  // Class creation: `BaseProcess.__new__`
  // ---------------------------------------------------------------------------

  /** Identity of a Python object bound in a process class body. */
  type Obj = nat

  /** The `node_name` and `node_type` attributes the metaclass sets on a node object. */
  datatype Registration = Registration(name: string, nodeType: NodeType)

  /** The last attribute name bound to `o` in the class body, if any. */
  function LastBinding(attrs: seq<(string, Obj)>, o: Obj): Option<string>
  {
    if attrs == [] then None
    else if attrs[|attrs| - 1].1 == o then Some(attrs[|attrs| - 1].0)
    else LastBinding(attrs[..|attrs| - 1], o)
  }

  /**
   * `BaseProcess.__new__`: collect the endpoints of `edges`, then walk the class
   * attributes in order and, for each one bound to an endpoint, set that object's
   * `node_name` to the attribute name and its `node_type` from its kind. `before` holds
   * the attributes node objects already had; the result holds them afterwards.
   */
  method RegisterNodes(edges: seq<(Obj, Obj)>, attrs: seq<(string, Obj)>, kind: Obj -> Impl,
                       before: map<Obj, Registration>)
    returns (after: map<Obj, Registration>)
    ensures forall o :: o in after <==> o in before || (o in Endpoints(edges) && LastBinding(attrs, o).Some?)
    ensures forall o :: o in Endpoints(edges) && LastBinding(attrs, o).Some? ==>
              after[o] == Registration(LastBinding(attrs, o).value, TypeFor(kind(o)))
    ensures forall o :: o in before && !(o in Endpoints(edges) && LastBinding(attrs, o).Some?) ==>
              after[o] == before[o]
  {
    var nodes: set<Obj> := {};
    for i := 0 to |edges|
      invariant nodes == Endpoints(edges[..i])
    {
      assert edges[..i + 1][..i] == edges[..i];
      nodes := nodes + {edges[i].0, edges[i].1};
    }
    assert edges[..|edges|] == edges;
    after := before;
    for i := 0 to |attrs|
      invariant forall o :: o in after <==> o in before || (o in nodes && LastBinding(attrs[..i], o).Some?)
      invariant forall o :: o in nodes && LastBinding(attrs[..i], o).Some? ==>
                  after[o] == Registration(LastBinding(attrs[..i], o).value, TypeFor(kind(o)))
      invariant forall o :: o in before && !(o in nodes && LastBinding(attrs[..i], o).Some?) ==>
                  after[o] == before[o]
    {
      assert attrs[..i + 1][..i] == attrs[..i];
      var (name, obj) := attrs[i];
      if obj in nodes {
        after := after[obj := Registration(name, TypeFor(kind(obj)))];
      }
    }
    assert attrs[..|attrs|] == attrs;
  }

  /** The node graph of a class whose node objects carry the attributes `reg`. */
  function Resolve(edges: seq<(Obj, Obj)>, reg: map<Obj, Registration>, kind: Obj -> Impl): (r: seq<(Node, Node)>)
    requires Endpoints(edges) <= reg.Keys
    ensures |r| == |edges|
  {
    if edges == [] then []
    else
      var init := edges[..|edges| - 1];
      var (s, e) := edges[|edges| - 1];
      Resolve(init, reg, kind)
        + [(Node(reg[s].name, reg[s].nodeType, kind(s)), Node(reg[e].name, reg[e].nodeType, kind(e)))]
  }

  /**
   * After registration, every node of the resolved graph is named after an attribute
   * bound to it and typed HUMAN exactly when it is a task view.
   */
  lemma {:induction false} RegisteredGraphTyped(edges: seq<(Obj, Obj)>, attrs: seq<(string, Obj)>,
                                                kind: Obj -> Impl, reg: map<Obj, Registration>, n: Node)
    requires forall o :: o in Endpoints(edges) ==>
               o in reg && LastBinding(attrs, o) == Some(reg[o].name) && reg[o].nodeType == TypeFor(kind(o))
    requires n in Endpoints(Resolve(edges, reg, kind))
    ensures n.nodeType == TypeFor(n.impl)
    ensures exists o :: o in Endpoints(edges) && LastBinding(attrs, o) == Some(n.name) && kind(o) == n.impl
    decreases |edges|
  {
    var init := edges[..|edges| - 1];
    var (s, e) := edges[|edges| - 1];
    assert Resolve(edges, reg, kind) == Resolve(init, reg, kind)
      + [(Node(reg[s].name, reg[s].nodeType, kind(s)), Node(reg[e].name, reg[e].nodeType, kind(e)))];
    if n in Endpoints(Resolve(init, reg, kind)) {
      RegisteredGraphTyped(init, attrs, kind, reg, n);
    } else {
      assert s in Endpoints(edges) && e in Endpoints(edges);
    }
  }
}
