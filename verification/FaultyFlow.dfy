/** A valid flow whose every run faults with an effect already applied: the
    condition language's run-time fault is not a node failure, so nothing undoes
    what the run did. */
module FaultyFlow {
  import opened Values
  import opened Graph
  import opened Rollback
  import opened Nodes
  import opened Traversal
  import opened Engine
  import Expressions

  const BLANK := Node("", "", "", "", "", "", map[], "", "", "", Nil)
  const BEGIN := BLANK.(id := "begin", typ := TRIGGER)
  const WRITE := BLANK.(id := "write", typ := OUTPUT, kind := "http", target := "x", value := Bool(true))
  const TEST := BLANK.(id := "test", typ := CONDITION, expression := "true || (")
  const FIRST := Edge("begin", "", "write")
  const SECOND := Edge("write", "", "test")

  /** The trigger leads to an output node and that to a faulty condition. */
  const FLOW := FlowDef([BEGIN, WRITE, TEST], [FIRST, SECOND])

  lemma OneMoreNode(nodes: seq<Node>, n: Node)
    ensures CountTriggers(nodes + [n]) == CountTriggers(nodes) + if n.typ == TRIGGER then 1 else 0
  {
    assert (nodes + [n])[..|nodes|] == nodes;
  }

  lemma FlowIsWellStructured()
    ensures WellStructured(FLOW)
  {
    OneMoreNode([], BEGIN);
    OneMoreNode([BEGIN], WRITE);
    OneMoreNode([BEGIN, WRITE], TEST);
    assert [] + [BEGIN] == [BEGIN] && [BEGIN] + [WRITE] == [BEGIN, WRITE] && [BEGIN, WRITE] + [TEST] == FLOW.nodes;
    assert CountTriggers([]) == 0;
    hide CountTriggers;
    assert Ids(FLOW.nodes) == ["begin", "write", "test"];
  }

  lemma FlowIsAccepted()
    ensures WellStructured(FLOW) && !Cyclic(FLOW.edges)
  {
    FlowIsWellStructured();
    hide WellStructured, Cyclic;
    var order := ["begin", "write", "test"];
    assert order[..1] == ["begin"] && order[..2] == ["begin", "write"];
    SortedMeansAcyclic(FLOW.edges, order);
  }

  lemma FromPair(a: Edge, b: Edge, u: string)
    ensures From([a, b], u) == (if a.source == u then [a] else []) + (if b.source == u then [b] else [])
  {
    assert [a, b][..1] == [a] && [a][..0] == [];
    assert From([a], u) == From([], u) + (if a.source == u then [a] else []);
  }

  lemma WithHandleOne(e: Edge)
    ensures WithHandle([e], "") == if e.sourceHandle == "" then [e] else []
  {
    assert [e][..0] == [];
  }

  lemma FlowEdges(g: Graph)
    requires Represents(FLOW, g)
    ensures g.nodes.Keys == {"begin", "write", "test"}
    ensures g.nodes["begin"] == BEGIN && g.nodes["write"] == WRITE && g.nodes["test"] == TEST
    ensures Adjacent(g.adj, "begin") == [FIRST] && Adjacent(g.adj, "write") == [SECOND]
  {
    assert Ids(FLOW.nodes) == ["begin", "write", "test"];
    assert FLOW.nodes[0] == BEGIN && FLOW.nodes[1] == WRITE && FLOW.nodes[2] == TEST;
    FromPair(FIRST, SECOND, "begin");
    FromPair(FIRST, SECOND, "write");
  }

  lemma LiveAfter(g: Graph, a: Visit)
    requires Represents(FLOW, g)
    ensures a.id == "begin" ==> LiveList(g, a) == [FIRST]
    ensures a.id == "write" ==> LiveList(g, a) == [SECOND]
  {
    FlowEdges(g);
    hide Represents;
    WithHandleOne(FIRST);
    WithHandleOne(SECOND);
  }

  lemma NextOfOne(g: Graph, a: Visit, e: Edge)
    requires LiveList(g, a) == [e] && e.target != a.id
    ensures NextDiscovery(g, [a]) == Some(Discovery(0, e.target))
  {
    hide LiveList, NextFrom;
    assert VisitIds([a]) == [a.id];
    NextIsEdge(g, [a], 0, 0, 0);
  }

  lemma NextOfTwo(g: Graph, a: Visit, b: Visit, e: Edge, f: Edge)
    requires LiveList(g, a) == [e] && e.target == b.id
    requires LiveList(g, b) == [f] && f.target != a.id && f.target != b.id
    ensures NextDiscovery(g, [a, b]) == Some(Discovery(1, f.target))
  {
    hide LiveList, NextFrom;
    var t := [a, b];
    assert VisitIds(t) == [a.id, b.id];
    assert VisitIds(t)[1] in VisitIds(t) && Covered(g, t, 0);
    NextIsEdge(g, t, 0, 1, 0);
  }

  lemma AfterBegin(g: Graph, a: Visit)
    requires Represents(FLOW, g) && a.id == "begin"
    ensures NextDiscovery(g, [a]) == Some(Discovery(0, "write"))
  {
    hide Represents, LiveList, NextFrom;
    LiveAfter(g, a);
    NextOfOne(g, a, FIRST);
  }

  lemma AfterWrite(g: Graph, a: Visit, b: Visit)
    requires Represents(FLOW, g) && a.id == "begin" && b.id == "write"
    ensures NextDiscovery(g, [a, b]) == Some(Discovery(1, "test"))
  {
    hide Represents, LiveList, NextFrom;
    LiveAfter(g, a);
    LiveAfter(g, b);
    NextOfTwo(g, a, b, FIRST, SECOND);
  }

  lemma WriteReplies(env: Env, perms: Permissions, calls: nat, input: Value)
    ensures NodeReply(env, perms, WRITE, input, calls).out.Output?
    ensures NodeReply(env, perms, WRITE, input, calls).effects == [Effect("http", "x", Bool(true))]
  {
  }

  lemma TestFaults(env: Env, perms: Permissions, calls: nat, input: Value)
    ensures NodeReply(env, perms, TEST, input, calls).out == Crashed
  {
    Expressions.UnclosedTextPanics(map["result" := input], env.read);
    hide Expressions.Eval;
    CrashesExactly(env, perms, TEST, input, calls);
  }

  /** The visits of any run of the flow: the trigger and the output node. */
  lemma VisitsOfRun(env: Env, perms: Permissions, g: Graph, t: seq<Visit>)
    requires Represents(FLOW, g) && Ends(env, perms, g, t)
    ensures |t| == 2 && t[0].id == "begin" && t[1].id == "write"
  {
    hide NextFrom, LiveList, CallsAfter, NodeReply;
    FlowEdges(g);
    var a := t[0];
    assert UniqueTrigger(g, a.id) && a.id == "begin";
    AfterBegin(g, a);
    if |t| == 1 {
      assert t == [a];
      WriteReplies(env, perms, CallsAfter(env, perms, g, t), a.output);
    } else {
      assert FollowsOn(g, t[..1], t[1]) && t[..1] == [a];
      var b := t[1];
      AfterWrite(g, a, b);
      if |t| > 2 {
        assert FollowsOn(g, t[..2], t[2]) && t[..2] == [a, b];
        assert t[2].id == "test";
        assert ReplyOf(env, perms, g, t[..2], t[2]).out == Output(t[2].output);
        TestFaults(env, perms, CallsAfter(env, perms, g, t[..2]), t[2].input);
      }
    }
  }

  lemma EffectsOfRun(env: Env, perms: Permissions, g: Graph, a: Visit, b: Visit)
    requires Represents(FLOW, g) && a.id == "begin" && b.id == "write"
    ensures EffectsOf(env, perms, g, [a, b]) == [Effect("http", "x", Bool(true))]
  {
    FlowEdges(g);
    assert [a, b][..1] == [a] && [a][..0] == [];
    WriteReplies(env, perms, CallsAfter(env, perms, g, [a]), b.input);
    assert EffectsOf(env, perms, g, []) == [];
    assert ReplyOf(env, perms, g, [], a).effects == [];
    assert EffectsOf(env, perms, g, [a]) == [];
  }

  /** Every run of this accepted flow faults, whatever the permissions and the
      outside world, and leaves the effect of its output node in the store. */
  lemma FaultLeavesEffect(env: Env, perms: Permissions, res: ExecutionResult, g: Graph, t: seq<Visit>,
                          data0: Data, undo0: seq<EffectRecord>, data: Data, undo: seq<EffectRecord>)
    requires Represents(FLOW, g) && EndedAs(res, env, perms, g, t)
    requires StoreAfter(res.status, env, perms, g, t, data0, undo0, data, undo)
    ensures res.status == Faulted
    ensures data == data0[Key("http", "x") := Bool(true)] && undo == undo0
  {
    hide BreadthFirst, NextFrom, NodeReply, LogsOf, CallsAfter;
    VisitsOfRun(env, perms, g, t);
    var a, b := t[0], t[1];
    assert t == [a, b];
    AfterWrite(g, a, b);
    FlowEdges(g);
    TestFaults(env, perms, CallsAfter(env, perms, g, t), b.output);
    EffectsOfRun(env, perms, g, a, b);
    OneEffect(data0, Effect("http", "x", Bool(true)));
  }
}
