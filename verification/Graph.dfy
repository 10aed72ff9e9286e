/** Flow graphs: the document, its validation, and the topological sort that
    doubles as cycle detection. */
module Graph {
  import opened Values
  import opened Sequences

  datatype Result<+T, +E> = Ok(value: T) | Fail(error: E)

  /** A vertex of a flow document; the fields that matter depend on `typ`. */
  datatype Node = Node(
    id: string,
    typ: string,
    triggerType: string,
    agentId: string,
    serverId: string,
    tool: string,
    arguments: map<string, Value>,
    expression: string,
    kind: string,
    target: string,
    value: Value)

  datatype Edge = Edge(source: string, sourceHandle: string, target: string)

  datatype FlowDef = FlowDef(nodes: seq<Node>, edges: seq<Edge>)

  datatype Graph = Graph(
    nodes: map<string, Node>,
    edges: seq<Edge>,
    adj: map<string, seq<Edge>>,
    order: seq<string>)

  datatype GraphError =
    | NoNodes
    | EmptyId
    | DuplicateId(id: string)
    | InvalidNode(node: Node)
    | TriggerCount(n: nat)
    | UnknownSource(edge: Edge)
    | UnknownTarget(edge: Edge)
    | CyclicGraph

  const TRIGGER := "trigger"
  const AGENT := "agent"
  const MCP_TOOL := "mcp_tool"
  const CONDITION := "condition"
  const OUTPUT := "output"

  predicate ValidOutputKind(kind: string)
  {
    kind in {"database", "modbus", "file", "http"}
  }

  predicate ValidNode(n: Node)
  {
    if n.typ == TRIGGER then n.triggerType in {"", "manual", "schedule", "event"}
    else if n.typ == AGENT then n.agentId != ""
    else if n.typ == MCP_TOOL then n.serverId != "" && n.tool != ""
    else if n.typ == CONDITION then n.expression != ""
    else if n.typ == OUTPUT then ValidOutputKind(n.kind) && n.target != ""
    else false
  }

  /** What a node must carry, outright: a trigger one of the four ways to be
      started, an agent node an agent, a tool node a server and a tool, a
      condition an expression, an output node one of the four kinds and a target. */
  lemma ValidNodeExactly(n: Node)
    ensures ValidNode(n) <==>
            || (n.typ == "trigger" && n.triggerType in {"", "manual", "schedule", "event"})
            || (n.typ == "agent" && n.agentId != "")
            || (n.typ == "mcp_tool" && n.serverId != "" && n.tool != "")
            || (n.typ == "condition" && n.expression != "")
            || (n.typ == "output" && n.kind in {"database", "modbus", "file", "http"} && n.target != "")
  {
  }

  // ---- what a valid document is -----------------------------------------

  function Ids(nodes: seq<Node>): (ids: seq<string>)
    ensures |ids| == |nodes| && forall i :: 0 <= i < |ids| ==> ids[i] == nodes[i].id
  {
    seq(|nodes|, i requires 0 <= i < |nodes| => nodes[i].id)
  }

  function CountTriggers(nodes: seq<Node>): nat
  {
    if nodes == [] then 0
    else CountTriggers(nodes[..|nodes| - 1]) + (if nodes[|nodes| - 1].typ == TRIGGER then 1 else 0)
  }

  predicate GoodNodes(nodes: seq<Node>)
  {
    && (forall i :: 0 <= i < |nodes| ==> nodes[i].id != "" && ValidNode(nodes[i]))
    && NoDup(Ids(nodes))
  }

  predicate NoDangling(def: FlowDef)
  {
    forall e :: e in def.edges ==> e.source in Ids(def.nodes) && e.target in Ids(def.nodes)
  }

  predicate WellStructured(def: FlowDef)
  {
    && def.nodes != []
    && GoodNodes(def.nodes)
    && CountTriggers(def.nodes) == 1
    && NoDangling(def)
  }

  predicate HasEdge(edges: seq<Edge>, u: string, v: string)
  {
    exists e :: e in edges && e.source == u && e.target == v
  }

  /** A walk along edges, self-loops and parallel edges included. */
  ghost predicate IsWalk(edges: seq<Edge>, p: seq<string>)
  {
    && |p| > 0
    && forall i :: 0 <= i < |p| - 1 ==> HasEdge(edges, p[i], p[i + 1])
  }

  /** Some walk of at least one edge returns to where it started. */
  ghost predicate Cyclic(edges: seq<Edge>)
  {
    exists p :: IsWalk(edges, p) && |p| >= 2 && p[0] == p[|p| - 1]
  }

  /** What each rejection asserts about the document. */
  ghost predicate Defect(def: FlowDef, err: GraphError)
  {
    match err
    case NoNodes => def.nodes == []
    case EmptyId => "" in Ids(def.nodes)
    case DuplicateId(id) => exists i, j :: 0 <= i < j < |def.nodes| && Ids(def.nodes)[i] == id == Ids(def.nodes)[j]
    case InvalidNode(n) => n in def.nodes && !ValidNode(n)
    case TriggerCount(n) => n == CountTriggers(def.nodes) && n != 1
    case UnknownSource(e) => e in def.edges && e.source !in Ids(def.nodes)
    case UnknownTarget(e) => e in def.edges && e.target !in Ids(def.nodes)
    case CyclicGraph => Cyclic(def.edges)
  }

  // ---- what a graph holds -----------------------------------------------

  /** The edges leaving `u`, in declaration order. */
  function From(edges: seq<Edge>, u: string): seq<Edge>
  {
    if edges == [] then []
    else
      var last := edges[|edges| - 1];
      From(edges[..|edges| - 1], u) + (if last.source == u then [last] else [])
  }

  function Adjacent(adj: map<string, seq<Edge>>, u: string): seq<Edge>
  {
    if u in adj then adj[u] else []
  }

  /** Every edge into a listed node comes from a node listed earlier. */
  ghost predicate SourcesFirst(edges: seq<Edge>, order: seq<string>)
  {
    forall e, j :: e in edges && 0 <= j < |order| && e.target == order[j] ==> e.source in order[..j]
  }

  /** The graph is the document: same nodes by id, same edges grouped by source,
      and an order that is a permutation of the ids with sources first. */
  ghost predicate Represents(def: FlowDef, g: Graph)
  {
    && (forall i :: 0 <= i < |def.nodes| ==> def.nodes[i].id in g.nodes && g.nodes[def.nodes[i].id] == def.nodes[i])
    && (forall id :: id in g.nodes ==> id in Ids(def.nodes))
    && g.edges == def.edges
    && (forall u :: Adjacent(g.adj, u) == From(def.edges, u))
    && NoDup(g.order) && ToSet(g.order) == ToSet(Ids(def.nodes))
    && SourcesFirst(def.edges, g.order)
  }

  // ---- counting edges ---------------------------------------------------

  /** The number of edges into `v` whose source is not in `done`. */
  function CountInto(edges: seq<Edge>, v: string, done: set<string>): nat
  {
    if edges == [] then 0
    else
      var last := edges[|edges| - 1];
      CountInto(edges[..|edges| - 1], v, done) + (if last.target == v && last.source !in done then 1 else 0)
  }

  function CountTo(edges: seq<Edge>, v: string): nat
  {
    if edges == [] then 0
    else CountTo(edges[..|edges| - 1], v) + (if edges[|edges| - 1].target == v then 1 else 0)
  }

  lemma {:induction false} CountIntoZero(edges: seq<Edge>, v: string, done: set<string>)
    ensures CountInto(edges, v, done) == 0 <==> forall e :: e in edges && e.target == v ==> e.source in done
  {
    if edges != [] {
      var init, last := edges[..|edges| - 1], edges[|edges| - 1];
      CountIntoZero(init, v, done);
      assert forall e :: e in edges <==> e in init || e == last;
    }
  }

  lemma {:induction false} CountToFrom(edges: seq<Edge>, v: string, cur: string, done: set<string>)
    requires cur !in done
    ensures CountInto(edges, v, done) == CountInto(edges, v, done + {cur}) + CountTo(From(edges, cur), v)
  {
    if edges != [] {
      var init, last := edges[..|edges| - 1], edges[|edges| - 1];
      CountToFrom(init, v, cur, done);
      if last.source == cur {
        var out := From(init, cur) + [last];
        assert From(edges, cur) == out && out[..|out| - 1] == From(init, cur);
      } else {
        assert From(init, cur) + [] == From(init, cur);
      }
    }
  }

  lemma {:induction false} CountToPrefix(edges: seq<Edge>, k: nat, v: string)
    requires k <= |edges|
    ensures CountTo(edges[..k], v) <= CountTo(edges, v)
    decreases |edges|
  {
    if k < |edges| {
      var init := edges[..|edges| - 1];
      CountToPrefix(init, k, v);
      assert init[..k] == edges[..k];
    } else {
      assert edges[..k] == edges;
    }
  }

  // ---- walks ------------------------------------------------------------

  /** Every member of `s` has a predecessor in `s`. */
  ghost predicate HasPredecessor(edges: seq<Edge>, s: set<string>, x: string)
  {
    exists e :: e in edges && e.target == x && e.source in s
  }

  ghost predicate ClosedBackwards(edges: seq<Edge>, s: set<string>)
  {
    forall x :: x in s ==> HasPredecessor(edges, s, x)
  }

  lemma WalkExtend(edges: seq<Edge>, p: seq<string>, v: string)
    requires IsWalk(edges, p) && HasEdge(edges, p[|p| - 1], v)
    ensures IsWalk(edges, p + [v])
  {
    hide HasEdge;
    var q := p + [v];
    forall i | 0 <= i < |q| - 1
      ensures HasEdge(edges, q[i], q[i + 1])
    {
      if i < |p| - 1 {
        assert q[i] == p[i] && q[i + 1] == p[i + 1];
      }
    }
  }

  lemma {:induction false} BackWalk(edges: seq<Edge>, s: set<string>, v: string, n: nat) returns (p: seq<string>)
    requires v in s && ClosedBackwards(edges, s)
    ensures IsWalk(edges, p) && |p| == n + 1 && p[n] == v && forall x :: x in p ==> x in s
    decreases n
  {
    if n == 0 {
      p := [v];
    } else {
      assert HasPredecessor(edges, s, v);
      var e :| e in edges && e.target == v && e.source in s;
      var q := BackWalk(edges, s, e.source, n - 1);
      assert HasEdge(edges, e.source, v);
      WalkExtend(edges, q, v);
      p := q + [v];
    }
  }

  lemma WalkSlice(edges: seq<Edge>, p: seq<string>, i: nat, j: nat)
    requires IsWalk(edges, p) && i <= j < |p|
    ensures IsWalk(edges, p[i..j + 1])
  {
    hide HasEdge;
    var q := p[i..j + 1];
    forall k | 0 <= k < |q| - 1
      ensures HasEdge(edges, q[k], q[k + 1])
    {
      assert q[k] == p[i + k] && q[k + 1] == p[i + k + 1];
    }
  }

  lemma RepeatMeansCyclic(edges: seq<Edge>, p: seq<string>, i: nat, j: nat)
    requires IsWalk(edges, p) && i < j < |p| && p[i] == p[j]
    ensures Cyclic(edges)
  {
    hide IsWalk;
    WalkSlice(edges, p, i, j);
    var q := p[i..j + 1];
    assert |q| == j + 1 - i && q[0] == p[i] && q[j - i] == p[j];
    assert IsWalk(edges, q);
  }

  /** A finite set in which every node has a predecessor contains a cycle. */
  lemma StuckMeansCyclic(edges: seq<Edge>, s: set<string>, v: string)
    requires v in s && ClosedBackwards(edges, s)
    ensures Cyclic(edges)
  {
    var p := BackWalk(edges, s, v, |s|);
    if NoDup(p) {
      Pigeonhole(p, s);
      assert false;
    }
    var i, j :| 0 <= i < j < |p| && p[i] == p[j];
    RepeatMeansCyclic(edges, p, i, j);
  }

  lemma {:induction false} WalksGoForward(edges: seq<Edge>, order: seq<string>, p: seq<string>, j: nat)
    requires SourcesFirst(edges, order) && IsWalk(edges, p) && |p| >= 2
    requires j < |order| && order[j] == p[|p| - 1]
    ensures p[0] in order[..j]
    decreases |p|
  {
    var u := p[|p| - 2];
    assert HasEdge(edges, p[|p| - 2], p[|p| - 1]);
    assert u in order[..j];
    if |p| > 2 {
      var j' :| 0 <= j' < j && order[j'] == u;
      WalksGoForward(edges, order, p[..|p| - 1], j');
      assert p[0] in order[..j'];
      assert p[0] in order[..j];
    }
  }

  /** An order with sources first that lists every edge's target rules out cycles. */
  lemma SortedMeansAcyclic(edges: seq<Edge>, order: seq<string>)
    requires SourcesFirst(edges, order) && NoDup(order)
    requires forall e :: e in edges ==> e.target in order
    ensures !Cyclic(edges)
  {
    if Cyclic(edges) {
      var p :| IsWalk(edges, p) && |p| >= 2 && p[0] == p[|p| - 1];
      assert HasEdge(edges, p[|p| - 2], p[|p| - 1]);
      var j :| 0 <= j < |order| && order[j] == p[|p| - 1];
      WalksGoForward(edges, order, p, j);
    }
  }

  // ---- building ---------------------------------------------------------

  lemma GoodNodesExtend(nodes: seq<Node>, i: nat)
    requires i < |nodes| && GoodNodes(nodes[..i])
    ensures Ids(nodes[..i + 1]) == Ids(nodes[..i]) + [nodes[i].id]
    ensures CountTriggers(nodes[..i + 1]) == CountTriggers(nodes[..i]) + (if nodes[i].typ == TRIGGER then 1 else 0)
    ensures GoodNodes(nodes[..i + 1]) <==>
            nodes[i].id != "" && ValidNode(nodes[i]) && nodes[i].id !in Ids(nodes[..i])
  {
    var init, n := nodes[..i], nodes[i];
    assert nodes[..i + 1][..i] == init;
    NoDupConcat(Ids(init), [n.id]);
    assert nodes[..i + 1] == init + [n];
  }

  lemma GoodNodesPrefix(nodes: seq<Node>, k: nat)
    requires k <= |nodes| && !GoodNodes(nodes[..k])
    ensures !GoodNodes(nodes)
  {
    if GoodNodes(nodes) {
      assert forall i :: 0 <= i < k ==> nodes[..k][i] == nodes[i] && Ids(nodes[..k])[i] == Ids(nodes)[i];
    }
  }

  lemma PrefixIds(nodes: seq<Node>, i: nat)
    requires i < |nodes|
    ensures nodes[i].id in Ids(nodes) && nodes[i] in nodes
    ensures nodes[i].id in Ids(nodes[..i]) ==> !NoDup(Ids(nodes))
  {
    assert Ids(nodes)[i] == nodes[i].id;
    if nodes[i].id in Ids(nodes[..i]) {
      var k :| 0 <= k < i && Ids(nodes[..i])[k] == nodes[i].id;
      assert Ids(nodes)[k] == Ids(nodes)[i];
    }
  }

  function NodeMap(nodes: seq<Node>): map<string, Node>
  {
    if nodes == [] then map[]
    else NodeMap(nodes[..|nodes| - 1])[nodes[|nodes| - 1].id := nodes[|nodes| - 1]]
  }

  lemma {:induction false} NodeMapFaithful(nodes: seq<Node>)
    ensures forall id :: id in NodeMap(nodes) <==> id in Ids(nodes)
    ensures NoDup(Ids(nodes)) ==>
              forall i :: 0 <= i < |nodes| ==> nodes[i].id in NodeMap(nodes) && NodeMap(nodes)[nodes[i].id] == nodes[i]
  {
    if nodes != [] {
      var init, last := nodes[..|nodes| - 1], nodes[|nodes| - 1];
      NodeMapFaithful(init);
      assert Ids(nodes) == Ids(init) + [last.id];
      NoDupConcat(Ids(init), [last.id]);
      forall i | 0 <= i < |init| && NoDup(Ids(nodes))
        ensures nodes[i].id in NodeMap(nodes) && NodeMap(nodes)[nodes[i].id] == nodes[i]
      {
        assert init[i] == nodes[i] && Ids(init)[i] == nodes[i].id;
        assert last.id !in Ids(init);
      }
    }
  }

  lemma CollectStep(nodes: seq<Node>, i: nat)
    requires i < |nodes| && GoodNodes(nodes[..i])
    ensures CountTriggers(nodes[..i + 1]) == CountTriggers(nodes[..i]) + (if nodes[i].typ == TRIGGER then 1 else 0)
    ensures NodeMap(nodes[..i + 1]) == NodeMap(nodes[..i])[nodes[i].id := nodes[i]]
    ensures GoodNodes(nodes[..i + 1]) <==>
            nodes[i].id != "" && ValidNode(nodes[i]) && nodes[i].id !in NodeMap(nodes[..i])
    ensures !GoodNodes(nodes[..i + 1]) ==> !GoodNodes(nodes)
    ensures nodes[i].id in Ids(nodes) && nodes[i] in nodes
    ensures nodes[i].id in NodeMap(nodes[..i]) ==>
              exists j :: 0 <= j < i && Ids(nodes)[j] == nodes[i].id == Ids(nodes)[i]
  {
    GoodNodesExtend(nodes, i);
    PrefixIds(nodes, i);
    NodeMapFaithful(nodes[..i]);
    assert nodes[..i + 1][..i] == nodes[..i];
    if nodes[i].id in NodeMap(nodes[..i]) {
      var j :| 0 <= j < i && Ids(nodes[..i])[j] == nodes[i].id;
      assert Ids(nodes)[j] == nodes[j].id == nodes[..i][j].id;
    }
    if !GoodNodes(nodes[..i + 1]) {
      GoodNodesPrefix(nodes, i + 1);
    }
  }

  predicate BadAt(nodes: seq<Node>, i: nat, err: GraphError)
    requires i < |nodes|
  {
    match err
    case EmptyId => nodes[i].id == ""
    case DuplicateId(id) => nodes[i].id == id != "" && id in Ids(nodes[..i])
    case InvalidNode(n) => nodes[i] == n && n.id != "" && n.id !in Ids(nodes[..i]) && !ValidNode(n)
    case _ => false
  }

  /** The error is about the first node that is not good, and about the first
      thing wrong with it: no id, an id taken already, or wrong fields. */
  ghost predicate FirstBad(nodes: seq<Node>, err: GraphError)
  {
    exists i :: 0 <= i < |nodes| && GoodNodes(nodes[..i]) && BadAt(nodes, i, err)
  }

  method CollectNodes(nodes: seq<Node>) returns (r: Result<map<string, Node>, GraphError>)
    ensures r.Ok? <==> GoodNodes(nodes) && CountTriggers(nodes) == 1
    ensures r.Ok? ==> r.value == NodeMap(nodes)
    ensures r.Fail? ==> Defect(FlowDef(nodes, []), r.error) && !r.error.CyclicGraph?
    ensures r.Fail? && !r.error.TriggerCount? ==> FirstBad(nodes, r.error)
  {
    var byId: map<string, Node> := map[];
    var triggers := 0;
    for i := 0 to |nodes|
      invariant GoodNodes(nodes[..i])
      invariant triggers == CountTriggers(nodes[..i])
      invariant byId == NodeMap(nodes[..i])
    {
      var n := nodes[i];
      CollectStep(nodes, i);
      NodeMapFaithful(nodes[..i]);
      if n.id == "" {
        assert BadAt(nodes, i, EmptyId);
        return Fail(EmptyId);
      }
      if n.id in byId {
        assert BadAt(nodes, i, DuplicateId(n.id));
        return Fail(DuplicateId(n.id));
      }
      if !ValidNode(n) {
        assert BadAt(nodes, i, InvalidNode(n));
        return Fail(InvalidNode(n));
      }
      if n.typ == TRIGGER {
        triggers := triggers + 1;
      }
      byId := byId[n.id := n];
    }
    assert nodes[..|nodes|] == nodes;
    if triggers != 1 {
      return Fail(TriggerCount(triggers));
    }
    return Ok(byId);
  }

  function AdjacencyMap(edges: seq<Edge>): map<string, seq<Edge>>
  {
    if edges == [] then map[]
    else
      var last := edges[|edges| - 1];
      var adj := AdjacencyMap(edges[..|edges| - 1]);
      adj[last.source := Adjacent(adj, last.source) + [last]]
  }

  lemma {:induction false} AdjacencyIsFrom(edges: seq<Edge>, u: string)
    ensures Adjacent(AdjacencyMap(edges), u) == From(edges, u)
  {
    if edges != [] {
      AdjacencyIsFrom(edges[..|edges| - 1], u);
    }
  }

  function InDegrees(ids: seq<string>, edges: seq<Edge>): map<string, nat>
  {
    map id | id in ids :: CountInto(edges, id, {})
  }

  lemma CollectNoEdges(ids: seq<string>)
    ensures AdjacencyMap([]) == map[] && InDegrees(ids, []) == map id | id in ids :: 0
  {
  }

  lemma CollectEdgeStep(ids: seq<string>, edges: seq<Edge>, k: nat)
    requires k < |edges| && edges[k].target in ids
    ensures edges[..k + 1] == edges[..k] + [edges[k]] && edges[k].target in InDegrees(ids, edges[..k])
    ensures var e, adj := edges[k], AdjacencyMap(edges[..k]);
            AdjacencyMap(edges[..k + 1]) == adj[e.source := Adjacent(adj, e.source) + [e]]
    ensures var e, inDegree := edges[k], InDegrees(ids, edges[..k]);
            InDegrees(ids, edges[..k + 1]) == inDegree[e.target := inDegree[e.target] + 1]
  {
    assert edges[..k + 1][..k] == edges[..k];
  }

  method CollectEdges(nodes: map<string, Node>, ids: seq<string>, edges: seq<Edge>)
    returns (r: Result<(map<string, seq<Edge>>, map<string, nat>), GraphError>)
    requires forall id :: id in nodes <==> id in ids
    ensures r.Ok? <==> forall e :: e in edges ==> e.source in ids && e.target in ids
    ensures r.Ok? ==> r.value == (AdjacencyMap(edges), InDegrees(ids, edges))
    ensures r.Fail? ==>
              || (r.error.UnknownSource? && r.error.edge in edges && r.error.edge.source !in ids)
              || (r.error.UnknownTarget? && r.error.edge in edges && r.error.edge.target !in ids)
  {
    hide AdjacencyMap, InDegrees;
    assert AdjacencyMap([]) == map[] && InDegrees(ids, []) == map id | id in ids :: 0 by { CollectNoEdges(ids); }
    var adj: map<string, seq<Edge>> := map[];
    var inDegree: map<string, nat> := map id | id in ids :: 0;
    for k := 0 to |edges|
      invariant forall e :: e in edges[..k] ==> e.source in ids && e.target in ids
      invariant adj == AdjacencyMap(edges[..k])
      invariant inDegree == InDegrees(ids, edges[..k])
    {
      var e := edges[k];
      if e.source !in nodes {
        return Fail(UnknownSource(e));
      }
      if e.target !in nodes {
        return Fail(UnknownTarget(e));
      }
      CollectEdgeStep(ids, edges, k);
      adj := adj[e.source := Adjacent(adj, e.source) + [e]];
      inDegree := inDegree[e.target := inDegree[e.target] + 1];
    }
    assert edges[..|edges|] == edges;
    return Ok((adj, inDegree));
  }

  lemma CountToStep(out: seq<Edge>, k: nat)
    requires k < |out|
    ensures forall v :: CountTo(out[..k + 1], v) == CountTo(out[..k], v) + if out[k].target == v then 1 else 0
  {
    assert out[..k + 1][..k] == out[..k];
  }

  /** Removes the edges `out` from the in-degree table, queueing the targets that
      no edge leads to any more. */
  method Relax(out: seq<Edge>, inDegree: map<string, nat>, queue: seq<string>)
    returns (rest: map<string, nat>, queue': seq<string>, ghost freed: seq<string>)
    requires forall e :: e in out ==> e.target in inDegree
    requires forall v :: v in inDegree ==> inDegree[v] >= CountTo(out, v)
    ensures rest.Keys == inDegree.Keys
    ensures forall v :: v in inDegree ==> rest[v] == inDegree[v] - CountTo(out, v)
    ensures queue' == queue + freed && NoDup(freed)
    ensures forall v :: v in freed <==> v in inDegree && CountTo(out, v) > 0 && rest[v] == 0
  {
    rest, queue', freed := inDegree, queue, [];
    assert forall v :: CountTo(out[..0], v) == 0;
    hide CountTo;
    for k := 0 to |out|
      invariant rest.Keys == inDegree.Keys
      invariant forall v :: v in inDegree ==> rest[v] == inDegree[v] - CountTo(out[..k], v)
      invariant queue' == queue + freed && NoDup(freed)
      invariant forall v :: v in freed <==> v in inDegree && CountTo(out[..k], v) > 0 && rest[v] == 0
    {
      var t := out[k].target;
      CountToStep(out, k);
      CountToPrefix(out, k + 1, t);
      assert t !in freed;
      rest := rest[t := rest[t] - 1];
      if rest[t] == 0 {
        queue' := queue' + [t];
        freed := freed + [t];
      }
    }
    assert out[..|out|] == out;
  }

  /** The state of the topological sort between two turns of its loop. */
  ghost predicate Sorting(ids: seq<string>, edges: seq<Edge>, inDegree: map<string, nat>,
                          queue: seq<string>, order: seq<string>)
  {
    && inDegree.Keys == ToSet(ids)
    && (forall v :: v in ids ==> inDegree[v] == CountInto(edges, v, ToSet(order)))
    && NoDup(order + queue)
    && (forall v :: v in order + queue <==> v in ids && inDegree[v] == 0)
    && SourcesFirst(edges, order)
  }

  lemma FreedIsNew(ids: seq<string>, inDegree: map<string, nat>, zero: seq<string>,
                   rest: map<string, nat>, freed: seq<string>, out: seq<Edge>)
    requires inDegree.Keys == ToSet(ids) == rest.Keys && NoDup(zero) && NoDup(freed)
    requires forall v :: v in zero <==> v in ids && inDegree[v] == 0
    requires forall v :: v in ids ==> rest[v] == inDegree[v] - CountTo(out, v)
    requires forall v :: v in freed <==> v in ids && CountTo(out, v) > 0 && rest[v] == 0
    ensures NoDup(zero + freed)
    ensures forall v :: v in zero + freed <==> v in ids && rest[v] == 0
  {
    forall v | v in freed
      ensures v !in zero
    {
      assert inDegree[v] > 0;
    }
    NoDupConcat(zero, freed);
  }

  lemma SortingStep(ids: seq<string>, edges: seq<Edge>, inDegree: map<string, nat>,
                    queue: seq<string>, order: seq<string>,
                    rest: map<string, nat>, freed: seq<string>)
    requires Sorting(ids, edges, inDegree, queue, order) && queue != []
    requires rest.Keys == inDegree.Keys && NoDup(freed)
    requires forall v :: v in ids ==> rest[v] == inDegree[v] - CountTo(From(edges, queue[0]), v)
    requires forall v :: v in freed <==> v in ids && CountTo(From(edges, queue[0]), v) > 0 && rest[v] == 0
    ensures Sorting(ids, edges, rest, queue[1..] + freed, order + [queue[0]])
  {
    var cur := queue[0];
    var order', queue' := order + [cur], queue[1..] + freed;
    assert order + queue == order' + queue[1..];
    assert order' + queue' == (order + queue) + freed;
    NoDupConcat(order, queue);
    assert cur in order + queue && cur !in order;
    assert ToSet(order') == ToSet(order) + {cur};
    forall v | v in ids
      ensures rest[v] == CountInto(edges, v, ToSet(order'))
    {
      CountToFrom(edges, v, cur, ToSet(order));
    }
    assert SourcesFirst(edges, order') by {
      CountIntoZero(edges, cur, ToSet(order));
      forall e, j | e in edges && 0 <= j < |order'| && e.target == order'[j]
        ensures e.source in order'[..j]
      {
        if j < |order| {
          assert order'[..j] == order[..j];
        } else {
          assert order'[..j] == order;
        }
      }
    }
    FreedIsNew(ids, inDegree, order + queue, rest, freed, From(edges, cur));
  }

  lemma SortingDone(ids: seq<string>, edges: seq<Edge>, inDegree: map<string, nat>, order: seq<string>)
    requires NoDup(ids) && Sorting(ids, edges, inDegree, [], order)
    requires forall e :: e in edges ==> e.source in ids && e.target in ids
    ensures |order| <= |ids|
    ensures |order| == |ids| ==>
              !Cyclic(edges) && NoDup(order) && ToSet(order) == ToSet(ids) && SourcesFirst(edges, order)
    ensures |order| < |ids| ==> Cyclic(edges)
  {
    assert order + [] == order;
    NoDupCardinality(ids);
    assert forall v :: v in order ==> v in order + [];
    Pigeonhole(order, ToSet(ids));
    if |order| == |ids| {
      assert forall v :: v in ids ==> v in ToSet(order);
      SortedMeansAcyclic(edges, order);
    } else {
      var left := ToSet(ids) - ToSet(order);
      NoDupCardinality(order);
      assert left != {} by {
        if left == {} {
          forall v | v in ids
            ensures v in order
          {
            assert v !in left;
          }
          SubsetCardinality(ToSet(ids), ToSet(order));
        }
      }
      forall x | x in left
        ensures HasPredecessor(edges, left, x)
      {
        CountIntoZero(edges, x, ToSet(order));
        assert x !in order + [];
      }
      var v :| v in left;
      StuckMeansCyclic(edges, left, v);
    }
  }

  /** Before the loop: nothing is done, and the queue holds what no edge enters. */
  lemma NothingSorted(ids: seq<string>, edges: seq<Edge>, queue: seq<string>)
    requires NoDup(ids) && NoDup(queue)
    requires forall v :: v in queue <==> v in ids && InDegrees(ids, edges)[v] == 0
    ensures Sorting(ids, edges, InDegrees(ids, edges), queue, [])
  {
    assert [] + queue == queue && ToSet<string>([]) == {};
  }

  /** The nodes no edge leads to, in declaration order. */
  method InitialQueue(ids: seq<string>, edges: seq<Edge>, inDegree: map<string, nat>) returns (queue: seq<string>)
    requires NoDup(ids) && inDegree == InDegrees(ids, edges)
    ensures Sorting(ids, edges, inDegree, queue, [])
  {
    hide Sorting, CountInto;
    queue := [];
    for i := 0 to |ids|
      invariant NoDup(queue)
      invariant forall v :: v in queue <==> v in ids[..i] && inDegree[v] == 0
    {
      if inDegree[ids[i]] == 0 {
        queue := queue + [ids[i]];
      }
    }
    assert ids[..|ids|] == ids;
    NothingSorted(ids, edges, queue);
  }

  lemma SortingFits(ids: seq<string>, edges: seq<Edge>, inDegree: map<string, nat>,
                    queue: seq<string>, order: seq<string>)
    requires NoDup(ids) && Sorting(ids, edges, inDegree, queue, order)
    ensures |order| + |queue| <= |ids|
    ensures queue != [] ==> queue[0] in ids
    ensures queue != [] ==> forall v :: v in inDegree ==> inDegree[v] >= CountTo(From(edges, queue[0]), v)
  {
    NoDupCardinality(ids);
    Pigeonhole(order + queue, ToSet(ids));
    if queue != [] {
      var cur := queue[0];
      NoDupConcat(order, queue);
      assert cur in order + queue && cur !in order;
      forall v | v in inDegree
        ensures inDegree[v] >= CountTo(From(edges, cur), v)
      {
        CountToFrom(edges, v, cur, ToSet(order));
      }
    }
  }

  lemma {:induction false} FromMembers(edges: seq<Edge>, u: string)
    ensures forall e :: e in From(edges, u) <==> e in edges && e.source == u
  {
    if edges != [] {
      var init, last := edges[..|edges| - 1], edges[|edges| - 1];
      FromMembers(init, u);
      assert forall e :: e in edges <==> e in init || e == last;
    }
  }

  method TopologicalSort(ids: seq<string>, edges: seq<Edge>, adj: map<string, seq<Edge>>, inDegree0: map<string, nat>)
    returns (order: seq<string>, remaining: int)
    requires NoDup(ids) && forall e :: e in edges ==> e.source in ids && e.target in ids
    requires adj == AdjacencyMap(edges) && inDegree0 == InDegrees(ids, edges)
    ensures remaining == 0 <==> !Cyclic(edges)
    ensures remaining == 0 ==> NoDup(order) && ToSet(order) == ToSet(ids) && SourcesFirst(edges, order)
  {
    var inDegree := inDegree0;
    var queue := InitialQueue(ids, edges, inDegree);
    order := [];
    remaining := |ids|;
    SortingFits(ids, edges, inDegree, queue, order);
    while |queue| > 0
      invariant Sorting(ids, edges, inDegree, queue, order)
      invariant remaining == |ids| - |order|
      invariant |order| + |queue| <= |ids|
      decreases |ids| - |order|
    {
      var cur := queue[0];
      SortingFits(ids, edges, inDegree, queue, order);
      AdjacencyIsFrom(edges, cur);
      FromMembers(edges, cur);
      var rest, queue', freed := Relax(Adjacent(adj, cur), inDegree, queue[1..]);
      SortingStep(ids, edges, inDegree, queue, order, rest, freed);
      order := order + [cur];
      remaining := remaining - 1;
      inDegree, queue := rest, queue';
      SortingFits(ids, edges, inDegree, queue, order);
    }
    SortingDone(ids, edges, inDegree, order);
  }

  lemma NodesOfAccepted(def: FlowDef)
    ensures WellStructured(def) ==> forall n :: n in def.nodes ==>
              || (n.typ == "trigger" && n.triggerType in {"", "manual", "schedule", "event"})
              || (n.typ == "agent" && n.agentId != "")
              || (n.typ == "mcp_tool" && n.serverId != "" && n.tool != "")
              || (n.typ == "condition" && n.expression != "")
              || (n.typ == "output" && n.kind in {"database", "modbus", "file", "http"} && n.target != "")
  {
    forall n | n in def.nodes && WellStructured(def)
      ensures ValidNode(n)
    {
      var i :| 0 <= i < |def.nodes| && def.nodes[i] == n;
    }
    forall n: Node {
      ValidNodeExactly(n);
    }
    hide ValidNode, WellStructured;
  }

  lemma ReportedNode(def: FlowDef, err: GraphError)
    ensures err.InvalidNode? && Defect(FlowDef(def.nodes, []), err) ==>
              var n := err.node;
              && n in def.nodes
              && !(
                || (n.typ == "trigger" && n.triggerType in {"", "manual", "schedule", "event"})
                || (n.typ == "agent" && n.agentId != "")
                || (n.typ == "mcp_tool" && n.serverId != "" && n.tool != "")
                || (n.typ == "condition" && n.expression != "")
                || (n.typ == "output" && n.kind in {"database", "modbus", "file", "http"} && n.target != ""))
  {
    if err.InvalidNode? {
      ValidNodeExactly(err.node);
      hide ValidNode;
    }
  }

  /** Joins good nodes by their edges and sorts them. */
  method JoinNodes(def: FlowDef, nodes: map<string, Node>) returns (r: Result<Graph, GraphError>)
    requires def.nodes != [] && GoodNodes(def.nodes) && CountTriggers(def.nodes) == 1 && nodes == NodeMap(def.nodes)
    ensures r.Ok? <==> WellStructured(def) && !Cyclic(def.edges)
    ensures r.Ok? ==> Represents(def, r.value)
    ensures r.Fail? ==> Defect(def, r.error) && !r.error.InvalidNode?
    ensures r == Fail(CyclicGraph) <==> WellStructured(def) && Cyclic(def.edges)
  {
    var ids := Ids(def.nodes);
    NodeMapFaithful(def.nodes);
    var collected := CollectEdges(nodes, ids, def.edges);
    if collected.Fail? {
      return Fail(collected.error);
    }
    var (adj, inDegree) := collected.value;
    var order, remaining := TopologicalSort(ids, def.edges, adj, inDegree);
    forall u
      ensures Adjacent(adj, u) == From(def.edges, u)
    {
      AdjacencyIsFrom(def.edges, u);
    }
    if remaining != 0 {
      return Fail(CyclicGraph);
    }
    return Ok(Graph(nodes, def.edges, adj, order));
  }

  /** Validates a flow document. It is accepted exactly when it is well
      structured and acyclic, every rejection names a defect it has, and a cycle
      is reported exactly when the cycle is all that is wrong. */
  method BuildGraph(def: FlowDef) returns (r: Result<Graph, GraphError>)
    ensures r.Ok? <==> WellStructured(def) && !Cyclic(def.edges)
    ensures r.Ok? ==> Represents(def, r.value)
    ensures r.Fail? ==> Defect(def, r.error)
    ensures r == Fail(CyclicGraph) <==> WellStructured(def) && Cyclic(def.edges)
    ensures r.Ok? ==> forall n :: n in def.nodes ==>
              || (n.typ == "trigger" && n.triggerType in {"", "manual", "schedule", "event"})
              || (n.typ == "agent" && n.agentId != "")
              || (n.typ == "mcp_tool" && n.serverId != "" && n.tool != "")
              || (n.typ == "condition" && n.expression != "")
              || (n.typ == "output" && n.kind in {"database", "modbus", "file", "http"} && n.target != "")
    ensures r.Fail? && r.error.InvalidNode? ==>
              var n := r.error.node;
              && n in def.nodes
              && !(
                || (n.typ == "trigger" && n.triggerType in {"", "manual", "schedule", "event"})
                || (n.typ == "agent" && n.agentId != "")
                || (n.typ == "mcp_tool" && n.serverId != "" && n.tool != "")
                || (n.typ == "condition" && n.expression != "")
                || (n.typ == "output" && n.kind in {"database", "modbus", "file", "http"} && n.target != ""))
  {
    hide ValidNode, Represents;
    if |def.nodes| == 0 {
      return Fail(NoNodes);
    }
    var nodes := CollectNodes(def.nodes);
    if nodes.Fail? {
      ReportedNode(def, nodes.error);
      return Fail(nodes.error);
    }
    r := JoinNodes(def, nodes.value);
    NodesOfAccepted(def);
  }

  // ---- reading a graph --------------------------------------------------

  function WithHandle(edges: seq<Edge>, handle: string): (out: seq<Edge>)
    ensures forall e :: e in out <==> e in edges && e.sourceHandle == handle
  {
    if edges == [] then []
    else
      var last := edges[|edges| - 1];
      WithHandle(edges[..|edges| - 1], handle) + (if last.sourceHandle == handle then [last] else [])
  }

  /** The edges out of a node are its edges, in declaration order. */
  lemma {:induction false} FromInOrder(edges: seq<Edge>, u: string) returns (at: seq<nat>)
    ensures ListedAt(edges, at, From(edges, u))
    ensures forall i :: 0 <= i < |edges| ==> (i in at <==> edges[i].source == u)
  {
    hide ListedAt;
    at := [];
    if edges == [] {
      NothingListed<Edge>();
    } else {
      var n := |edges| - 1;
      at := FromInOrder(edges[..n], u);
      assert forall i :: 0 <= i < n ==> edges[..n][i] == edges[i];
      at := ListLonger(edges, at, From(edges[..n], u), edges[n].source == u);
    }
  }

  /** And those under one handle are these, in the same order. */
  lemma {:induction false} WithHandleInOrder(edges: seq<Edge>, handle: string) returns (at: seq<nat>)
    ensures ListedAt(edges, at, WithHandle(edges, handle))
    ensures forall i :: 0 <= i < |edges| ==> (i in at <==> edges[i].sourceHandle == handle)
  {
    hide ListedAt;
    at := [];
    if edges == [] {
      NothingListed<Edge>();
    } else {
      var n := |edges| - 1;
      at := WithHandleInOrder(edges[..n], handle);
      assert forall i :: 0 <= i < n ==> edges[..n][i] == edges[i];
      at := ListLonger(edges, at, WithHandle(edges[..n], handle), edges[n].sourceHandle == handle);
    }
  }

  /** The edges leaving a node under one source handle, in declaration order. */
  method OutgoingEdges(g: Graph, nodeId: string, handle: string) returns (out: seq<Edge>)
    ensures out == WithHandle(Adjacent(g.adj, nodeId), handle)
  {
    out := [];
    var edges := Adjacent(g.adj, nodeId);
    for k := 0 to |edges|
      invariant out == WithHandle(edges[..k], handle)
    {
      assert edges[..k + 1][..k] == edges[..k];
      if edges[k].sourceHandle == handle {
        out := out + [edges[k]];
      }
    }
    assert edges[..|edges|] == edges;
  }

  ghost predicate UniqueTrigger(g: Graph, id: string)
  {
    && id in g.nodes && g.nodes[id].typ == TRIGGER
    && forall x :: x in g.nodes && g.nodes[x].typ == TRIGGER ==> x == id
  }

  /** Searches the nodes, in no particular order, for the trigger. */
  method Trigger(g: Graph) returns (r: Option<Node>)
    ensures r.None? <==> forall x :: x in g.nodes ==> g.nodes[x].typ != TRIGGER
    ensures r.Some? ==> exists x :: x in g.nodes && g.nodes[x] == r.value && r.value.typ == TRIGGER
  {
    var left := g.nodes.Keys;
    while left != {}
      invariant left <= g.nodes.Keys
      invariant forall x :: x in g.nodes && x !in left ==> g.nodes[x].typ != TRIGGER
      decreases left
    {
      var x :| x in left;
      if g.nodes[x].typ == TRIGGER {
        return Some(g.nodes[x]);
      }
      left := left - {x};
    }
    return None;
  }

  lemma {:induction false} OneTrigger(nodes: seq<Node>)
    ensures CountTriggers(nodes) >= 1 ==> exists i :: 0 <= i < |nodes| && nodes[i].typ == TRIGGER
    ensures CountTriggers(nodes) <= 1 ==>
              forall i, j :: 0 <= i < j < |nodes| ==> !(nodes[i].typ == TRIGGER && nodes[j].typ == TRIGGER)
    ensures CountTriggers(nodes) == 0 ==> forall i :: 0 <= i < |nodes| ==> nodes[i].typ != TRIGGER
  {
    if nodes != [] {
      var init := nodes[..|nodes| - 1];
      OneTrigger(init);
      assert forall i :: 0 <= i < |init| ==> nodes[i] == init[i];
    }
  }

  lemma {:induction false} TwoTriggers(nodes: seq<Node>)
    ensures CountTriggers(nodes) >= 2 ==>
              exists i, j :: 0 <= i < j < |nodes| && nodes[i].typ == nodes[j].typ == TRIGGER
  {
    if nodes != [] {
      var n := |nodes| - 1;
      TwoTriggers(nodes[..n]);
      OneTrigger(nodes[..n]);
      assert forall i :: 0 <= i < n ==> nodes[i] == nodes[..n][i];
      if CountTriggers(nodes) >= 2 && CountTriggers(nodes[..n]) < 2 {
        assert nodes[n].typ == TRIGGER;
        var i :| 0 <= i < n && nodes[..n][i].typ == TRIGGER;
        assert nodes[i].typ == TRIGGER;
      }
    }
  }

  lemma ExactlyOneTrigger(nodes: seq<Node>)
    ensures CountTriggers(nodes) == 1 <==>
            exists k :: 0 <= k < |nodes| && nodes[k].typ == "trigger" &&
                        forall i :: 0 <= i < |nodes| && i != k ==> nodes[i].typ != "trigger"
  {
    OneTrigger(nodes);
    TwoTriggers(nodes);
    hide CountTriggers;
    if CountTriggers(nodes) == 1 {
      var k :| 0 <= k < |nodes| && nodes[k].typ == TRIGGER;
      assert forall i :: 0 <= i < |nodes| && i != k ==> nodes[i].typ != "trigger";
    }
  }

  lemma IdIsSomeNode(nodes: seq<Node>)
    ensures forall id :: id in Ids(nodes) <==> exists i :: 0 <= i < |nodes| && nodes[i].id == id
  {
    forall id
      ensures id in Ids(nodes) <==> exists i :: 0 <= i < |nodes| && nodes[i].id == id
    {
      if id in Ids(nodes) {
        var i :| 0 <= i < |nodes| && Ids(nodes)[i] == id;
      }
      if i :| 0 <= i < |nodes| && nodes[i].id == id {
        assert Ids(nodes)[i] == id;
      }
    }
  }

  lemma GoodNodesExactly(nodes: seq<Node>)
    ensures GoodNodes(nodes) <==>
            && (forall i :: 0 <= i < |nodes| ==> nodes[i].id != "")
            && (forall i, j :: 0 <= i < j < |nodes| ==> nodes[i].id != nodes[j].id)
            && (forall n :: n in nodes ==>
                  || (n.typ == "trigger" && n.triggerType in {"", "manual", "schedule", "event"})
                  || (n.typ == "agent" && n.agentId != "")
                  || (n.typ == "mcp_tool" && n.serverId != "" && n.tool != "")
                  || (n.typ == "condition" && n.expression != "")
                  || (n.typ == "output" && n.kind in {"database", "modbus", "file", "http"} && n.target != ""))
  {
    assert NoDup(Ids(nodes)) <==> forall i, j :: 0 <= i < j < |nodes| ==> nodes[i].id != nodes[j].id by {
      assert forall i :: 0 <= i < |nodes| ==> Ids(nodes)[i] == nodes[i].id;
    }
    hide NoDup, Ids;
    forall n: Node {
      ValidNodeExactly(n);
    }
    hide ValidNode;
  }

  lemma NoDanglingExactly(def: FlowDef)
    ensures NoDangling(def) <==>
            forall e :: e in def.edges ==>
              && (exists i :: 0 <= i < |def.nodes| && def.nodes[i].id == e.source)
              && (exists i :: 0 <= i < |def.nodes| && def.nodes[i].id == e.target)
  {
    IdIsSomeNode(def.nodes);
    hide Ids;
  }

  lemma {:induction false} TriggersCounted(nodes: seq<Node>)
    ensures CountTriggers(nodes) == |set i | 0 <= i < |nodes| && nodes[i].typ == "trigger"|
  {
    if nodes != [] {
      var n := |nodes| - 1;
      TriggersCounted(nodes[..n]);
      var before := set i | 0 <= i < n && nodes[..n][i].typ == "trigger";
      var all := set i | 0 <= i < |nodes| && nodes[i].typ == "trigger";
      forall i
        ensures i in all <==> i in before || (i == n && nodes[n].typ == "trigger")
      {
        assert 0 <= i < n ==> nodes[..n][i] == nodes[i];
      }
      assert all == if nodes[n].typ == "trigger" then before + {n} else before;
    }
  }

  /** What each rejection says about the document, outright. */
  lemma RejectionsExactly(def: FlowDef, id: string, e: Edge, n: nat)
    ensures Defect(def, NoNodes) <==> |def.nodes| == 0
    ensures Defect(def, EmptyId) <==> exists i :: 0 <= i < |def.nodes| && def.nodes[i].id == ""
    ensures Defect(def, DuplicateId(id)) <==>
            exists i, j :: 0 <= i < j < |def.nodes| && def.nodes[i].id == id && def.nodes[j].id == id
    ensures Defect(def, TriggerCount(n)) <==>
            n == |set i | 0 <= i < |def.nodes| && def.nodes[i].typ == "trigger"| && n != 1
    ensures Defect(def, UnknownSource(e)) <==>
            e in def.edges && forall i :: 0 <= i < |def.nodes| ==> def.nodes[i].id != e.source
    ensures Defect(def, UnknownTarget(e)) <==>
            e in def.edges && forall i :: 0 <= i < |def.nodes| ==> def.nodes[i].id != e.target
  {
    IdIsSomeNode(def.nodes);
    TriggersCounted(def.nodes);
    assert forall i :: 0 <= i < |def.nodes| ==> Ids(def.nodes)[i] == def.nodes[i].id;
    hide CountTriggers;
  }

  /** What an acceptable document is, outright: it has nodes; every node has an
      id of its own and what its type needs; exactly one of them is a trigger;
      and edges join nodes that are there. */
  lemma WellStructuredExactly(def: FlowDef)
    ensures WellStructured(def) <==>
            && |def.nodes| > 0
            && (forall i :: 0 <= i < |def.nodes| ==> def.nodes[i].id != "")
            && (forall i, j :: 0 <= i < j < |def.nodes| ==> def.nodes[i].id != def.nodes[j].id)
            && (forall n :: n in def.nodes ==>
                  || (n.typ == "trigger" && n.triggerType in {"", "manual", "schedule", "event"})
                  || (n.typ == "agent" && n.agentId != "")
                  || (n.typ == "mcp_tool" && n.serverId != "" && n.tool != "")
                  || (n.typ == "condition" && n.expression != "")
                  || (n.typ == "output" && n.kind in {"database", "modbus", "file", "http"} && n.target != ""))
            && (exists k :: 0 <= k < |def.nodes| && def.nodes[k].typ == "trigger" &&
                  forall i :: 0 <= i < |def.nodes| && i != k ==> def.nodes[i].typ != "trigger")
            && (forall e :: e in def.edges ==>
                  && (exists i :: 0 <= i < |def.nodes| && def.nodes[i].id == e.source)
                  && (exists i :: 0 <= i < |def.nodes| && def.nodes[i].id == e.target))
  {
    ExactlyOneTrigger(def.nodes);
    GoodNodesExactly(def.nodes);
    NoDanglingExactly(def);
    hide CountTriggers, GoodNodes, NoDangling;
  }

  /** In an accepted graph the search finds the one trigger whatever order it
      visits the nodes in. */
  lemma AcceptedHasUniqueTrigger(def: FlowDef, g: Graph) returns (id: string)
    requires WellStructured(def) && Represents(def, g)
    ensures UniqueTrigger(g, id) && g.nodes[id].id == id
  {
    OneTrigger(def.nodes);
    var i :| 0 <= i < |def.nodes| && def.nodes[i].typ == TRIGGER;
    id := def.nodes[i].id;
    forall x | x in g.nodes && g.nodes[x].typ == TRIGGER
      ensures x == id
    {
      var k :| 0 <= k < |def.nodes| && Ids(def.nodes)[k] == x;
      assert g.nodes[def.nodes[k].id] == def.nodes[k];
    }
  }
}
