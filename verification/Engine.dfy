/** Executing a flow: breadth-first from the trigger along live edges, each
    node at most once, with every side effect undone if a node fails. */
module Engine {
  import opened Values
  import opened Sequences
  import opened Graph
  import opened Rollback
  import opened Nodes
  import opened Traversal
  import Lexer
  import Expressions
  import Bounds = CursorBounds
  import CursorSpec

  datatype RunStatus = Success | RolledBack | Invalid | Faulted

  datatype RunError = BadFlow(g: GraphError) | NodeFailed(e: NodeError)

  datatype ExecutionResult = ExecutionResult(
    status: RunStatus,
    outputs: map<string, Value>,
    logs: seq<LogEvent>,
    error: Option<RunError>)

  /** The execution context is where the visits `t` leave it, on a store that
      held `data0` and had undone `undo0` when the run began. */
  ghost predicate Tracks(ec: ExecContext, g: Graph, t: seq<Visit>, data0: Data, undo0: seq<EffectRecord>)
    reads ec, ec.rb, ec.rb.store
  {
    var es := EffectsOf(ec.env, ec.perms, g, t);
    && ec.outputs == OutputsOf(t)
    && ec.logs == LogsOf(ec.env, ec.perms, g, t)
    && ec.calls == CallsAfter(ec.env, ec.perms, g, t)
    && ec.rb.records == RecordsOf(data0, es)
    && ec.rb.store.data == ApplyAll(data0, es)
    && ec.rb.store.undoLog == undo0
  }

  lemma {:induction false} ApplyAllConcat(data: Data, a: seq<Effect>, b: seq<Effect>)
    ensures ApplyAll(data, a + b) == ApplyAll(ApplyAll(data, a), b)
    ensures RecordsOf(data, a + b) == RecordsOf(data, a) + RecordsOf(ApplyAll(data, a), b)
    decreases |b|
  {
    if b == [] {
      assert a + b == a;
    } else {
      var init := b[..|b| - 1];
      assert (a + b)[..|a + b| - 1] == a + init;
      ApplyAllConcat(data, a, init);
    }
  }

  lemma VisitExtends(env: Env, perms: Permissions, g: Graph, t: seq<Visit>, v: Visit, data0: Data)
    ensures var reply := ReplyOf(env, perms, g, t, v);
            && EffectsOf(env, perms, g, t + [v]) == EffectsOf(env, perms, g, t) + reply.effects
            && LogsOf(env, perms, g, t + [v]) == LogsOf(env, perms, g, t) + reply.logs + [NodeExecuted(v.id)]
            && CallsAfter(env, perms, g, t + [v]) == reply.calls
            && OutputsOf(t + [v]) == OutputsOf(t)[v.id := v.output]
    ensures var es, more := EffectsOf(env, perms, g, t), ReplyOf(env, perms, g, t, v).effects;
            && ApplyAll(data0, es + more) == ApplyAll(ApplyAll(data0, es), more)
            && RecordsOf(data0, es + more) == RecordsOf(data0, es) + RecordsOf(ApplyAll(data0, es), more)
  {
    hide NodeReply;
    assert (t + [v])[..|t|] == t;
    ApplyAllConcat(data0, EffectsOf(env, perms, g, t), ReplyOf(env, perms, g, t, v).effects);
  }

  lemma ReplaysExtend(env: Env, perms: Permissions, g: Graph, t: seq<Visit>, v: Visit)
    requires Replays(env, perms, g, t) && ReplyOf(env, perms, g, t, v).out == Output(v.output)
    ensures Replays(env, perms, g, t + [v])
  {
    hide ReplyOf;
    var t' := t + [v];
    forall i | 0 <= i < |t'|
      ensures ReplyOf(env, perms, g, t'[..i], t'[i]).out == Output(t'[i].output)
    {
      if i < |t| {
        assert t'[..i] == t[..i];
      } else {
        assert t'[..i] == t;
      }
    }
  }

  /** Runs the node of a visit and, if it outputs something, adds the visit. A
      node that fails or crashes leaves the store as the earlier visits did. */
  method RunVisit(ec: ExecContext, g: Graph, id: string, input: Value, ghost from: nat, ghost depth: nat,
                  ghost t: seq<Visit>, ghost data0: Data, ghost undo0: seq<EffectRecord>)
    returns (out: NodeOutcome, ghost t': seq<Visit>)
    requires Tracks(ec, g, t, data0, undo0) && id in g.nodes
    requires Replays(ec.env, ec.perms, g, t)
    modifies ec, ec.rb, ec.rb.store
    ensures out.Output? ==>
              && t' == t + [Visit(id, from, input, out.v, depth)]
              && Tracks(ec, g, t', data0, undo0)
              && Replays(ec.env, ec.perms, g, t')
    ensures !out.Output? ==>
              && t' == t
              && ec.outputs == OutputsOf(t)
              && ec.logs == LogsOf(ec.env, ec.perms, g, t)
                            + NodeReply(ec.env, ec.perms, g.nodes[id], input, CallsAfter(ec.env, ec.perms, g, t)).logs
              && ec.rb.records == RecordsOf(data0, EffectsOf(ec.env, ec.perms, g, t))
              && ec.rb.store.data == ApplyAll(data0, EffectsOf(ec.env, ec.perms, g, t))
              && ec.rb.store.undoLog == undo0
    ensures out == NodeReply(ec.env, ec.perms, g.nodes[id], input, CallsAfter(ec.env, ec.perms, g, t)).out
  {
    ghost var data := ec.rb.store.data;
    FailuresHaveNoEffect(ec.env, ec.perms, g.nodes[id], input, ec.calls);
    hide NodeReply;
    out := ec.ExecuteNode(g.nodes[id], input);
    t' := t;
    if out.Output? {
      ghost var v := Visit(id, from, input, out.v, depth);
      VisitExtends(ec.env, ec.perms, g, t, v, data0);
      t' := t + [v];
      ReplaysExtend(ec.env, ec.perms, g, t, v);
      ec.outputs := ec.outputs[id := out.v];
      ec.Log(NodeExecuted(id));
    } else {
      assert RecordsOf(data, []) == [];
    }
  }

  /** The queue, the visited set and the order are views of the visits. */
  ghost predicate Frontier(t: seq<Visit>, done: nat, queue: seq<string>, visited: set<string>, order: seq<string>)
  {
    && 0 < done <= |t|
    && queue == VisitIds(t)[done..]
    && visited == ToSet(VisitIds(t))
    && order == VisitIds(t)[1..]
  }

  /** The visits before `h` are covered. */
  ghost predicate CoveredTo(g: Graph, t: seq<Visit>, h: nat)
  {
    forall i :: 0 <= i < h && i < |t| ==> Covered(g, t, i)
  }

  lemma CoveredStays(g: Graph, t: seq<Visit>, v: Visit, h: nat)
    requires CoveredTo(g, t, h) && h <= |t|
    ensures CoveredTo(g, t + [v], h)
  {
    hide LiveList;
    var t' := t + [v];
    assert VisitIds(t') == VisitIds(t) + [v.id];
    forall i | 0 <= i < h
      ensures Covered(g, t', i)
    {
      assert t'[i] == t[i] && Covered(g, t, i);
    }
  }

  /** The run is at visit `h` of the traversal `t`, and its objects agree. */
  ghost predicate Running(ec: ExecContext, g: Graph, t: seq<Visit>, h: nat, data0: Data, undo0: seq<EffectRecord>)
    reads ec, ec.rb, ec.rb.store
  {
    Tracks(ec, g, t, data0, undo0) && Replays(ec.env, ec.perms, g, t) && BreadthFirst(g, t) && CoveredTo(g, t, h)
  }

  lemma CurrentOutput(outputs: map<string, Value>, t: seq<Visit>, h: nat)
    requires outputs == OutputsOf(t) && NoDup(VisitIds(t)) && h < |t|
    ensures t[h].id in outputs && outputs[t[h].id] == t[h].output
  {
    OutputsOfVisits(t);
  }

  /** The run stopped at the next discovery, whose node gave no output: the
      store and the undo log are those of the completed visits, and the log goes
      on with what that node logged. */
  ghost predicate Stopped(ec: ExecContext, g: Graph, t: seq<Visit>, out: NodeOutcome,
                          data0: Data, undo0: seq<EffectRecord>)
    reads ec, ec.rb, ec.rb.store
  {
    && BreadthFirst(g, t) && Replays(ec.env, ec.perms, g, t) && NextDiscovery(g, t).Some?
    && NextDiscovery(g, t).value.from < |t| && NextDiscovery(g, t).value.id in g.nodes
    && !out.Output? && out == NextReply(ec.env, ec.perms, g, t).out
    && ec.logs == LogsOf(ec.env, ec.perms, g, t) + NextReply(ec.env, ec.perms, g, t).logs
    && ec.rb.records == RecordsOf(data0, EffectsOf(ec.env, ec.perms, g, t))
    && ec.rb.store.data == ApplyAll(data0, EffectsOf(ec.env, ec.perms, g, t))
    && ec.rb.store.undoLog == undo0
  }

  /** Visits the not yet visited target of the current visit's `k`-th live edge:
      the next discovery of the search. */
  method Discover(ec: ExecContext, g: Graph, cur: string, target: string, ghost k: nat,
                  ghost t0: seq<Visit>, ghost h: nat, ghost data0: Data, ghost undo0: seq<EffectRecord>)
    returns (out: NodeOutcome, ghost t: seq<Visit>)
    requires Running(ec, g, t0, h, data0, undo0) && h < |t0| && t0[h].id == cur
    requires k < |LiveList(g, t0[h])| && target == LiveList(g, t0[h])[k].target
    requires forall e :: e in LiveList(g, t0[h])[..k] ==> e.target in VisitIds(t0)
    requires target in g.nodes && target !in VisitIds(t0)
    modifies ec, ec.rb, ec.rb.store
    ensures out.Output? ==>
              && Running(ec, g, t, h, data0, undo0)
              && |t| == |t0| + 1 && t0 == t[..|t0|] && t[|t0|].id == target
    ensures !out.Output? ==> t == t0 && Stopped(ec, g, t, out, data0, undo0)
  {
    hide NodeReply, LiveList, NextFrom, VisitIds, Replays, RootVisit, Covered;
    hide OutputsOf, LogsOf, EffectsOf, CallsAfter, ApplyAll, RecordsOf;
    VisitsAreDistinct(g, t0);
    CurrentOutput(ec.outputs, t0, h);
    NextIsEdge(g, t0, 0, h, k);
    out, t := RunVisit(ec, g, target, ec.outputs[cur], h, t0[h].depth + 1, t0, data0, undo0);
    if out.Output? {
      var v := t[|t0|];
      assert FollowsOn(g, t0, v);
      BreadthFirstExtends(g, t0, v);
      CoveredStays(g, t0, v, h);
    }
  }

  lemma FrontierExtends(before: seq<Visit>, t: seq<Visit>, done: nat, queue: seq<string>, visited: set<string>,
                        order: seq<string>, id: string)
    requires Frontier(before, done, queue, visited, order)
    requires |t| == |before| + 1 && before == t[..|before|] && t[|before|].id == id
    ensures Frontier(t, done, queue + [id], visited + {id}, order + [id])
    ensures forall x :: x in VisitIds(t) <==> x in VisitIds(before) || x == id
  {
    assert VisitIds(t) == VisitIds(before) + [id];
  }

  lemma PrefixMembers(edges: seq<Edge>, k: nat)
    requires k < |edges|
    ensures forall e :: e in edges[..k + 1] <==> e in edges[..k] || e == edges[k]
  {
    assert edges[..k + 1] == edges[..k] + [edges[k]];
  }

  lemma FrontierVisited(t: seq<Visit>, done: nat, queue: seq<string>, visited: set<string>, order: seq<string>)
    requires Frontier(t, done, queue, visited, order)
    ensures forall x :: x in visited <==> x in VisitIds(t)
    ensures done <= |t|
  {
  }

  /** Follows the edges of one handle of the current node. */
  method FollowEdges(ec: ExecContext, g: Graph, cur: string, edges: seq<Edge>,
                     queue0: seq<string>, visited0: set<string>, order0: seq<string>,
                     ghost t0: seq<Visit>, ghost h: nat, ghost data0: Data, ghost undo0: seq<EffectRecord>)
    returns (out: NodeOutcome, queue: seq<string>, visited: set<string>, order: seq<string>, ghost t: seq<Visit>)
    requires Running(ec, g, t0, h, data0, undo0) && h < |t0| && t0[h].id == cur
    requires Frontier(t0, h + 1, queue0, visited0, order0)
    requires edges == LiveList(g, t0[h]) && forall e :: e in edges ==> e.target in g.nodes
    modifies ec, ec.rb, ec.rb.store
    ensures t0 <= t
    ensures out.Output? ==> Running(ec, g, t, h, data0, undo0) && Frontier(t, h + 1, queue, visited, order)
    ensures out.Output? ==> Covered(g, t, h)
    ensures !out.Output? ==> Stopped(ec, g, t, out, data0, undo0)
  {
    hide Running, LiveList, Frontier, VisitIds, Stopped, NodeReply;
    out, queue, visited, order, t := Output(Nil), queue0, visited0, order0, t0;
    for k := 0 to |edges|
      invariant out.Output? && t0 <= t
      invariant Running(ec, g, t, h, data0, undo0) && Frontier(t, h + 1, queue, visited, order)
      invariant forall e :: e in edges[..k] ==> e.target in VisitIds(t)
    {
      var edge := edges[k];
      PrefixMembers(edges, k);
      FrontierVisited(t, h + 1, queue, visited, order);
      if edge.target in visited {
        continue;
      }
      ghost var before, seen := t, visited;
      visited := visited + {edge.target};
      out, t := Discover(ec, g, cur, edge.target, k, t, h, data0, undo0);
      if !out.Output? {
        return;
      }
      FrontierExtends(before, t, h + 1, queue, seen, order, edge.target);
      order := order + [edge.target];
      queue := queue + [edge.target];
    }
    assert edges[..|edges|] == edges;
  }

  lemma RunningParts(ec: ExecContext, g: Graph, t: seq<Visit>, h: nat, data0: Data, undo0: seq<EffectRecord>)
    requires Running(ec, g, t, h, data0, undo0)
    ensures Replays(ec.env, ec.perms, g, t) && BreadthFirst(g, t) && CoveredTo(g, t, h)
    ensures NoDup(VisitIds(t)) && |t| <= |g.nodes|
    ensures forall i :: 0 <= i < |t| ==>
              t[i].id in g.nodes && t[i].id in ec.outputs && ec.outputs[t[i].id] == t[i].output
  {
    hide Replays, BreadthFirst, CoveredTo, RecordsOf, ApplyAll, EffectsOf, LogsOf, CallsAfter;
    VisitsAreDistinct(g, t);
    OutputsOfVisits(t);
    assert forall i :: 0 <= i < |t| ==> VisitIds(t)[i] == t[i].id;
    Pigeonhole(VisitIds(t), g.nodes.Keys);
  }

  lemma RunningAdvances(ec: ExecContext, g: Graph, t: seq<Visit>, h: nat, data0: Data, undo0: seq<EffectRecord>)
    requires Running(ec, g, t, h, data0, undo0) && h < |t| && Covered(g, t, h)
    ensures Running(ec, g, t, h + 1, data0, undo0)
  {
  }

  /** The edges of an emitted handle are exactly the live ones, and lead to nodes
      of the graph. */
  lemma LiveEdges(def: FlowDef, g: Graph, v: Visit)
    requires WellStructured(def) && Represents(def, g) && v.id in g.nodes
    ensures LiveList(g, v) == WithHandle(Adjacent(g.adj, v.id), EmittedHandles(g.nodes[v.id], v.output)[0])
    ensures forall e :: e in LiveList(g, v) ==> e.target in g.nodes
  {
    FromMembers(def.edges, v.id);
    forall e | e in LiveList(g, v)
      ensures e.target in g.nodes
    {
      assert e in def.edges && e.target in Ids(def.nodes);
    }
  }

  /** The result map of a successful run: the outputs of the listed nodes. */
  method ResultMap(outputs: map<string, Value>, root: string, order: seq<string>) returns (results: map<string, Value>)
    requires root in outputs && forall id :: id in order ==> id in outputs
    ensures results.Keys == {root} + ToSet(order)
    ensures forall id :: id in results ==> results[id] == outputs[id]
  {
    results := map[root := outputs[root]];
    for i := 0 to |order|
      invariant results.Keys == {root} + ToSet(order[..i])
      invariant forall id :: id in results ==> results[id] == outputs[id]
    {
      assert order[..i + 1] == order[..i] + [order[i]];
      results := results[order[i] := outputs[order[i]]];
    }
    assert order[..|order|] == order;
  }

  lemma ResultMapIsOutputs(results: map<string, Value>, t: seq<Visit>, root: string, order: seq<string>)
    requires |t| > 0 && root == t[0].id && order == VisitIds(t)[1..]
    requires results.Keys == {root} + ToSet(order)
    requires forall id :: id in results ==> id in OutputsOf(t) && results[id] == OutputsOf(t)[id]
    ensures results == OutputsOf(t)
  {
    OutputsOfVisits(t);
    assert VisitIds(t) == [root] + order;
  }

  /** What a run that stopped at the next discovery reports. */
  function StoppedResult(env: Env, perms: Permissions, g: Graph, t: seq<Visit>): ExecutionResult
    requires NextDiscovery(g, t).Some? && NextDiscovery(g, t).value.from < |t|
  {
    var reply := NextReply(env, perms, g, t);
    var logs := LogsOf(env, perms, g, t) + reply.logs;
    if reply.out.Failed? then
      ExecutionResult(RolledBack, map[], logs + [RunFailed], Some(NodeFailed(reply.out.e)))
    else
      ExecutionResult(Faulted, map[], logs, None)
  }

  /** How a run over an accepted graph ended: a complete search with its outputs
      and log, or stopped at the next discovery, whose node failed or faulted.
      The result is fixed by the visits. */
  ghost predicate EndedAs(res: ExecutionResult, env: Env, perms: Permissions, g: Graph, t: seq<Visit>)
  {
    && Ends(env, perms, g, t)
    && res == if NextDiscovery(g, t).None? then ExecutionResult(Success, OutputsOf(t), LogsOf(env, perms, g, t), None)
              else StoppedResult(env, perms, g, t)
  }

  lemma CompleteEndsRun(res: ExecutionResult, env: Env, perms: Permissions, g: Graph, t: seq<Visit>)
    requires res == ExecutionResult(Success, OutputsOf(t), LogsOf(env, perms, g, t), None)
    requires Explored(g, t) && Replays(env, perms, g, t)
    ensures EndedAs(res, env, perms, g, t)
  {
  }

  lemma StopEndsRun(ec: ExecContext, g: Graph, t: seq<Visit>, out: NodeOutcome, data0: Data, undo0: seq<EffectRecord>)
    requires Stopped(ec, g, t, out, data0, undo0)
    ensures EndedAs(StoppedResult(ec.env, ec.perms, g, t), ec.env, ec.perms, g, t)
  {
    hide BreadthFirst, Replays, NextFrom, ReplyOf;
  }

  /** The side-effect store after a run whose completed visits are `t`, by how
      the run ended: kept on success, restored on a node failure with every
      record undone last to first, and left as it stood at a run-time fault. */
  ghost predicate StoreAfter(status: RunStatus, env: Env, perms: Permissions, g: Graph, t: seq<Visit>,
                             data0: Data, undo0: seq<EffectRecord>, data: Data, undo: seq<EffectRecord>)
  {
    var es := EffectsOf(env, perms, g, t);
    match status
    case Invalid => data == data0 && undo == undo0
    case Success => data == ApplyAll(data0, es) && undo == undo0
    case RolledBack => data == Settled(data0, KeySet(es)) && undo == undo0 + Reverse(RecordsOf(data0, es))
    case Faulted => data == ApplyAll(data0, es) && undo == undo0
  }

  class Engine {
    const env: Env
    const sideEffects: MemorySideEffectStore

    constructor (env: Env, sideEffects: MemorySideEffectStore)
      ensures this.env == env && this.sideEffects == sideEffects
    {
      this.env, this.sideEffects := env, sideEffects;
    }

    method Succeed(ec: ExecContext, g: Graph, root: string, order: seq<string>,
                   ghost t: seq<Visit>, ghost data0: Data, ghost undo0: seq<EffectRecord>)
      returns (res: ExecutionResult)
      requires |t| > 0 && root == t[0].id
      requires Running(ec, g, t, |t|, data0, undo0) && order == VisitIds(t)[1..]
      ensures res.status.Success? && EndedAs(res, ec.env, ec.perms, g, t)
      ensures StoreAfter(res.status, ec.env, ec.perms, g, t, data0, undo0, ec.rb.store.data, ec.rb.store.undoLog)
    {
      hide EndedAs, ReplyOf, Replays, BreadthFirst, Covered, NextFrom;
      RunningParts(ec, g, t, |t|, data0, undo0);
      CoveredIsExplored(g, t);
      assert forall i :: 0 <= i < |t| ==> VisitIds(t)[i] == t[i].id;
      var outputs := ResultMap(ec.outputs, root, order);
      ResultMapIsOutputs(outputs, t, root, order);
      res := ExecutionResult(Success, outputs, ec.logs, None);
      CompleteEndsRun(res, ec.env, ec.perms, g, t);
    }

    /** Undoes everything the run applied and reports the failure. */
    method RollbackAndFail(ec: ExecContext, e: NodeError) returns (res: ExecutionResult)
      modifies ec, ec.rb, ec.rb.store
      ensures res == ExecutionResult(RolledBack, map[], old(ec.logs) + [RunFailed], Some(NodeFailed(e)))
      ensures ec.rb.records == []
      ensures ec.rb.store.data == UndoAll(old(ec.rb.store.data), old(ec.rb.records))
      ensures ec.rb.store.undoLog == old(ec.rb.store.undoLog) + Reverse(old(ec.rb.records))
    {
      ec.rb.Rollback();
      ec.Log(RunFailed);
      res := ExecutionResult(RolledBack, map[], ec.logs, Some(NodeFailed(e)));
    }

    /** Turns the outcome of the traversal into the result of the run. */
    method Conclude(ec: ExecContext, g: Graph, root: string, out: NodeOutcome, order: seq<string>,
                    ghost t: seq<Visit>, ghost data0: Data, ghost undo0: seq<EffectRecord>)
      returns (res: ExecutionResult)
      requires |t| > 0 && root == t[0].id
      requires out.Output? ==> Running(ec, g, t, |t|, data0, undo0) && order == VisitIds(t)[1..]
      requires !out.Output? ==> Stopped(ec, g, t, out, data0, undo0)
      modifies ec, ec.rb, ec.rb.store
      ensures !res.status.Invalid? && EndedAs(res, ec.env, ec.perms, g, t)
      ensures StoreAfter(res.status, ec.env, ec.perms, g, t, data0, undo0, ec.rb.store.data, ec.rb.store.undoLog)
    {
      hide EndedAs, ReplyOf, Replays, BreadthFirst, NextFrom, Running;
      match out {
        case Output(_) =>
          res := Succeed(ec, g, root, order, t, data0, undo0);
        case Failed(e) =>
          StopEndsRun(ec, g, t, out, data0, undo0);
          RollbackRestores(data0, EffectsOf(ec.env, ec.perms, g, t));
          res := RollbackAndFail(ec, e);
        case Crashed =>
          StopEndsRun(ec, g, t, out, data0, undo0);
          res := ExecutionResult(Faulted, map[], ec.logs, None);
      }
    }

    /** Runs the trigger, which never fails, as the first visit. */
    method Start(ec: ExecContext, g: Graph, trigger: Node) returns (out: NodeOutcome, ghost t: seq<Visit>)
      requires UniqueTrigger(g, trigger.id) && g.nodes[trigger.id] == trigger
      requires ec.outputs == map[] && ec.logs == [] && ec.calls == 0 && ec.rb.records == []
      modifies ec, ec.rb, ec.rb.store
      ensures out.Output? && |t| == 1 && t[0].id == trigger.id
      ensures Running(ec, g, t, 0, old(ec.rb.store.data), old(ec.rb.store.undoLog))
    {
      out, t := RunVisit(ec, g, trigger.id, Nil, 0, 0, [], ec.rb.store.data, ec.rb.store.undoLog);
      assert VisitIds(t) == [trigger.id];
    }

    /** The breadth-first loop. */
    method Traverse(ec: ExecContext, def: FlowDef, g: Graph, root: string,
                    ghost t0: seq<Visit>, ghost data0: Data, ghost undo0: seq<EffectRecord>)
      returns (out: NodeOutcome, order: seq<string>, ghost t: seq<Visit>)
      requires WellStructured(def) && Represents(def, g)
      requires |t0| == 1 && t0[0].id == root && Running(ec, g, t0, 0, data0, undo0)
      modifies ec, ec.rb, ec.rb.store
      ensures t0 <= t
      ensures out.Output? ==> Running(ec, g, t, |t|, data0, undo0) && order == VisitIds(t)[1..]
      ensures !out.Output? ==> Stopped(ec, g, t, out, data0, undo0)
    {
      hide Running, Stopped, LiveList, NodeReply, Represents, WellStructured;
      var queue, visited := [root], {root};
      out, order, t := Output(Nil), [], t0;
      ghost var h := 0;
      assert VisitIds(t) == [root];
      while |queue| > 0
        invariant out.Output? && t0 <= t && h <= |t|
        invariant Running(ec, g, t, h, data0, undo0)
        invariant queue == VisitIds(t)[h..] && visited == ToSet(VisitIds(t)) && order == VisitIds(t)[1..]
        decreases |g.nodes| - h
      {
        var cur := queue[0];
        queue := queue[1..];
        RunningParts(ec, g, t, h, data0, undo0);
        var handles := EmittedHandles(g.nodes[cur], ec.outputs[cur]);
        LiveEdges(def, g, t[h]);
        ghost var visit := t[h];
        for i := 0 to |handles|
          invariant out.Output? && t0 <= t && h < |t| && t[h] == visit
          invariant Running(ec, g, t, h, data0, undo0) && Frontier(t, h + 1, queue, visited, order)
          invariant i > 0 ==> Covered(g, t, h)
        {
          var edges := OutgoingEdges(g, cur, handles[i]);
          out, queue, visited, order, t := FollowEdges(ec, g, cur, edges, queue, visited, order, t, h, data0, undo0);
          if !out.Output? {
            return;
          }
        }
        RunningParts(ec, g, t, h, data0, undo0);
        RunningAdvances(ec, g, t, h, data0, undo0);
        h := h + 1;
      }
      RunningParts(ec, g, t, h, data0, undo0);
    }

    /** Runs an accepted flow. */
    method RunGraph(def: FlowDef, g: Graph, perms: Permissions) returns (res: ExecutionResult, ghost t: seq<Visit>)
      requires WellStructured(def) && Represents(def, g)
      modifies sideEffects
      ensures !res.status.Invalid? && EndedAs(res, env, perms, g, t)
      ensures StoreAfter(res.status, env, perms, g, t, old(sideEffects.data), old(sideEffects.undoLog),
                         sideEffects.data, sideEffects.undoLog)
    {
      hide EndedAs, StoreAfter, Running, Stopped;
      ghost var triggerId := AcceptedHasUniqueTrigger(def, g);
      var trigger := Trigger(g);
      assert trigger.Some? && UniqueTrigger(g, trigger.value.id) && g.nodes[trigger.value.id] == trigger.value;
      hide WellStructured;
      hide Represents;
      var rb := new RollbackLog(sideEffects);
      var ec := new ExecContext(env, perms, rb);
      var out, order;
      out, t := Start(ec, g, trigger.value);
      out, order, t := Traverse(ec, def, g, trigger.value.id, t, old(sideEffects.data), old(sideEffects.undoLog));
      res := Conclude(ec, g, trigger.value.id, out, order, t, old(sideEffects.data), old(sideEffects.undoLog));
    }

    /** Runs a flow. */
    method Execute(def: FlowDef, perms: Permissions) returns (res: ExecutionResult, ghost g: Graph, ghost t: seq<Visit>)
      modifies sideEffects
      ensures res.status.Invalid? <==> !WellStructured(def) || Cyclic(def.edges)
      ensures res.status.Invalid? ==> res.error.Some? && res.error.value.BadFlow? && Defect(def, res.error.value.g)
      ensures !res.status.Invalid? ==> Represents(def, g) && EndedAs(res, env, perms, g, t)
      ensures StoreAfter(res.status, env, perms, g, t, old(sideEffects.data), old(sideEffects.undoLog),
                         sideEffects.data, sideEffects.undoLog)
    {
      hide EndedAs;
      var built := BuildGraph(def);
      t, g := [], Graph(map[], [], map[], []);
      if built.Fail? {
        return ExecutionResult(Invalid, map[], [RunFailed], Some(BadFlow(built.error))), g, t;
      }
      var graph := built.value;
      g := graph;
      res, t := RunGraph(def, graph, perms);
    }
  }

  // ---- whole executions --------------------------------------------------

  lemma SameDocumentSameFlow(def: FlowDef, g: Graph, g': Graph)
    requires Represents(def, g) && Represents(def, g')
    ensures SameFlow(g, g')
  {
    forall id
      ensures id in g.nodes <==> id in g'.nodes
      ensures id in g.nodes ==> g.nodes[id] == g'.nodes[id]
    {
      if id in g.nodes || id in g'.nodes {
        assert id in Ids(def.nodes);
        var i :| 0 <= i < |def.nodes| && Ids(def.nodes)[i] == id;
        assert def.nodes[i].id == id;
      }
    }
  }

  lemma EndsWithin(env: Env, perms: Permissions, g: Graph, t: seq<Visit>)
    requires Ends(env, perms, g, t) && NextDiscovery(g, t).Some?
    ensures NextDiscovery(g, t).value.from < |t|
  {
  }

  /** Execution is deterministic, however it ends: the document, the permissions
      and the answers of the outside world determine the visits of a run, the
      node it stops at if it fails or faults, its result and its log, and so what
      it leaves in a store. */
  lemma RunIsDetermined(def: FlowDef, env: Env, perms: Permissions,
                        res: ExecutionResult, g: Graph, t: seq<Visit>,
                        res': ExecutionResult, g': Graph, t': seq<Visit>)
    requires Represents(def, g) && Represents(def, g')
    requires EndedAs(res, env, perms, g, t) && EndedAs(res', env, perms, g', t')
    ensures t == t' && res == res' && NextDiscovery(g, t) == NextDiscovery(g', t')
    ensures forall data0, undo0, data, undo ::
              StoreAfter(res.status, env, perms, g, t, data0, undo0, data, undo) <==>
              StoreAfter(res'.status, env, perms, g', t', data0, undo0, data, undo)
  {
    hide Ends, ReplyOf, NextFrom, Represents;
    SameDocumentSameFlow(def, g, g');
    SearchIsDetermined(env, perms, g, t, g', t');
    SameNext(g, g', t, 0);
    SameRecords(env, perms, g, g', t);
    if NextDiscovery(g, t).Some? {
      EndsWithin(env, perms, g, t);
      var d := NextDiscovery(g, t).value;
      SameReply(env, perms, g, g', t, Visit(d.id, d.from, t[d.from].output, Nil, 0));
    }
  }

  /** A set of nodes that contains the trigger and, with a node, the target of
      every edge whose handle that node's recorded output emits. */
  ghost predicate ClosedUnder(g: Graph, outputs: map<string, Value>, s: set<string>)
  {
    && (forall id :: UniqueTrigger(g, id) ==> id in s)
    && (forall e | e in g.edges && e.source in s && e.source in outputs && e.source in g.nodes ::
          e.sourceHandle in EmittedHandles(g.nodes[e.source], outputs[e.source]) ==> e.target in s)
  }

  lemma LiveByEdge(def: FlowDef, g: Graph, v: Visit, id: string)
    requires Represents(def, g) && v.id in g.nodes
    ensures Live(g, v, id) <==>
            exists e ::
              && e in g.edges && e.source == v.id && e.target == id
              && e.sourceHandle in EmittedHandles(g.nodes[v.id], v.output)
  {
    assert Adjacent(g.adj, v.id) == From(def.edges, v.id);
    FromMembers(def.edges, v.id);
  }

  lemma ClosedUnderIsLiveClosed(def: FlowDef, g: Graph, t: seq<Visit>, s: set<string>)
    requires Represents(def, g) && Explored(g, t)
    ensures ClosedUnder(g, OutputsOf(t), s) ==> LiveClosed(g, t, s)
    ensures LiveClosed(g, t, s) ==> ClosedUnder(g, OutputsOf(t), s)
  {
    OutputsOfVisits(t);
    VisitsAreDistinct(g, t);
    hide Represents, Live, EmittedHandles, OutputsOf, FollowsOn, NextFrom;
    var outputs := OutputsOf(t);
    assert forall i :: 0 <= i < |t| ==> t[i].id in g.nodes && outputs[t[i].id] == t[i].output;
    if ClosedUnder(g, outputs, s) {
      forall i, id | 0 <= i < |t| && t[i].id in s && Live(g, t[i], id)
        ensures id in s
      {
        LiveByEdge(def, g, t[i], id);
      }
    }
    if LiveClosed(g, t, s) {
      forall e | e in g.edges && e.source in s && e.source in outputs && e.source in g.nodes
        && e.sourceHandle in EmittedHandles(g.nodes[e.source], outputs[e.source])
        ensures e.target in s
      {
        var i :| 0 <= i < |t| && VisitIds(t)[i] == e.source;
        LiveByEdge(def, g, t[i], e.target);
      }
    }
  }

  /** Which edges out of an executed node are live, outright: those of a
      condition whose handle is "true", or "false" if its output is null, false,
      the empty string or the number zero; of any other node the unnamed ones. */
  lemma LiveEdgeExactly(def: FlowDef, g: Graph, t: seq<Visit>, i: nat, e: Edge)
    requires Represents(def, g) && BreadthFirst(g, t) && i < |t| && e in g.edges && e.source == t[i].id
    ensures t[i].id in g.nodes
    ensures e in LiveList(g, t[i]) <==>
            if g.nodes[t[i].id].typ == "condition" then
              var v := t[i].output;
              var no := v == Nil || v == Bool(false) || v == Str("") || v == Num(0.0);
              (e.sourceHandle == "true" && !no) || (e.sourceHandle == "false" && no)
            else e.sourceHandle == ""
  {
    VisitsAreDistinct(g, t);
    FromMembers(def.edges, e.source);
    EmittedExactly(g.nodes[t[i].id], t[i].output, e.sourceHandle);
    hide EmittedHandles, BreadthFirst;
  }

  lemma SuccessIsExplored(res: ExecutionResult, env: Env, perms: Permissions, g: Graph, t: seq<Visit>)
    requires res.status == Success && EndedAs(res, env, perms, g, t)
    ensures Explored(g, t) && res.outputs == OutputsOf(t)
    ensures res.outputs.Keys == ToSet(VisitIds(t))
    ensures forall i :: 0 <= i < |t| ==>
              t[i].id in g.nodes && t[i].id in res.outputs && res.outputs[t[i].id] == t[i].output
  {
    assert Explored(g, t) && res.outputs == OutputsOf(t) by {
      hide BreadthFirst, NextFrom, ReplyOf, LogsOf, OutputsOf;
    }
    hide BreadthFirst, NextFrom, ReplyOf, LogsOf, OutputsOf, EndedAs;
    OutputsOfVisits(t);
    VisitsAreDistinct(g, t);
  }

  /** A successful run outright, one way: its result has the trigger, and with a
      node the target of every edge that node's output makes live. */
  lemma LiveTargetsRun(def: FlowDef, res: ExecutionResult, env: Env, perms: Permissions, g: Graph, t: seq<Visit>,
                       e: Edge)
    requires Represents(def, g) && res.status == Success && EndedAs(res, env, perms, g, t)
    ensures res.outputs.Keys <= g.nodes.Keys && exists id :: id in res.outputs && g.nodes[id].typ == "trigger"
    ensures e in g.edges && e.source in res.outputs ==>
              var v := res.outputs[e.source];
              var no := v == Nil || v == Bool(false) || v == Str("") || v == Num(0.0);
              (if g.nodes[e.source].typ == "condition" then e.sourceHandle == (if no then "false" else "true")
               else e.sourceHandle == "") ==>
                e.target in res.outputs
  {
    SuccessIsExplored(res, env, perms, g, t);
    assert t[0].id in res.outputs && g.nodes[t[0].id].typ == "trigger";
    hide BreadthFirst, NextFrom, ReplyOf, LogsOf, OutputsOf, EndedAs;
    if e in g.edges && e.source in res.outputs {
      var i :| 0 <= i < |t| && VisitIds(t)[i] == e.source;
      LiveEdgeExactly(def, g, t, i, e);
      hide Represents;
      if e in LiveList(g, t[i]) {
        LiveIsListed(g, t[i], e.target);
        LiveIsVisited(g, t, i, e.target);
      }
    }
  }

  /** And the other way: every node in the result but the trigger is the target
      of such an edge. */
  lemma ResultsAreReached(def: FlowDef, res: ExecutionResult, env: Env, perms: Permissions, g: Graph, t: seq<Visit>,
                          id: string) returns (e: Edge)
    requires Represents(def, g) && res.status == Success && EndedAs(res, env, perms, g, t)
    requires id in res.outputs && id in g.nodes && g.nodes[id].typ != "trigger"
    ensures e in g.edges && e.target == id && e.source in res.outputs && e.source in g.nodes
    ensures var v := res.outputs[e.source];
            var no := v == Nil || v == Bool(false) || v == Str("") || v == Num(0.0);
            if g.nodes[e.source].typ == "condition" then e.sourceHandle == (if no then "false" else "true")
            else e.sourceHandle == ""
  {
    SuccessIsExplored(res, env, perms, g, t);
    assert g.nodes[t[0].id].typ == "trigger";
    hide NextFrom, ReplyOf, LogsOf, OutputsOf, EndedAs;
    var j :| 0 <= j < |t| && VisitIds(t)[j] == id;
    var i := t[j].from;
    VisitIsDiscovered(g, t, j);
    hide BreadthFirst;
    LiveIsListed(g, t[i], id);
    e :| e in LiveList(g, t[i]) && e.target == id;
    FromMembers(def.edges, t[i].id);
    LiveEdgeExactly(def, g, t, i, e);
  }

  /** Execution as a least fixed point: the keys of a successful run's result
      are the smallest set that contains the trigger and is closed under the
      edges its own outputs make live, and the log shows each of them running
      exactly once. */
  lemma SuccessIsLeastFixedPoint(def: FlowDef, res: ExecutionResult, env: Env, perms: Permissions,
                                 g: Graph, t: seq<Visit>, s: set<string>)
    requires Represents(def, g) && res.status == Success && EndedAs(res, env, perms, g, t)
    ensures ClosedUnder(g, res.outputs, res.outputs.Keys)
    ensures ClosedUnder(g, res.outputs, s) ==> res.outputs.Keys <= s
    ensures NoDup(ExecutedIds(res.logs)) && ToSet(ExecutedIds(res.logs)) == res.outputs.Keys
  {
    assert Explored(g, t) && res.outputs == OutputsOf(t) && res.logs == LogsOf(env, perms, g, t) by {
      hide BreadthFirst, NextFrom, ReplyOf, LogsOf, OutputsOf;
    }
    hide *;
    var keys := ToSet(VisitIds(t));
    OutputsOfVisits(t);
    LogsListExecutions(env, perms, g, t);
    ExecutedIsLeastFixedPoint(g, t, s);
    ClosedUnderIsLiveClosed(def, g, t, keys);
    ClosedUnderIsLiveClosed(def, g, t, s);
  }

  lemma VisitEffects(env: Env, perms: Permissions, g: Graph, t: seq<Visit>, j: nat)
    requires j < |t|
    ensures EffectsOf(env, perms, g, t[..j + 1]) ==
            EffectsOf(env, perms, g, t[..j]) + ReplyOf(env, perms, g, t[..j], t[j]).effects
  {
    hide ReplyOf;
    assert t[..j + 1][..j] == t[..j];
  }

  lemma LastEffectShows(data: Data, es: seq<Effect>, e: Effect)
    ensures Read(ApplyAll(data, es + [e]), KeyOf(e)) == e.value
  {
    assert (es + [e])[..|es|] == es;
  }

  lemma EffectCell(e: Effect)
    ensures KeyOf(e) == e.kind + ":" + e.target
  {
  }

  lemma OutputVisit(env: Env, perms: Permissions, g: Graph, t: seq<Visit>, j: nat)
    requires BreadthFirst(g, t) && Replays(env, perms, g, t) && j < |t|
    requires t[j].id in g.nodes && g.nodes[t[j].id].typ == "output"
    ensures t[j].from < j
    ensures var node := g.nodes[t[j].id];
            var value := if node.value == Str("$input") || node.value == Str("$result") then t[t[j].from].output
                         else node.value;
            && ReplyOf(env, perms, g, t[..j], t[j]).effects == [Effect(node.kind, node.target, value)]
            && t[j].output == Map(map["kind" := Str(node.kind), "target" := Str(node.target), "value" := value])
  {
    assert j > 0 by { hide FollowsOn; }
    VisitIsDiscovered(g, t, j);
    assert ReplyOf(env, perms, g, t[..j], t[j]).out == Output(t[j].output);
    hide BreadthFirst, Replays, NodeReply, CallsAfter;
    OutputNodeExactly(env, perms, g.nodes[t[j].id], t[j].input, CallsAfter(env, perms, g, t[..j]));
  }

  /** What a run leaves behind at an output node: right after its visit, the cell
      of its kind and target holds its value, or the output of the node that
      discovered it if the value says so. */
  lemma OutputVisitWrites(env: Env, perms: Permissions, g: Graph, t: seq<Visit>, j: nat, data0: Data)
    requires BreadthFirst(g, t) && Replays(env, perms, g, t) && j < |t|
    requires t[j].id in g.nodes && g.nodes[t[j].id].typ == "output"
    ensures t[j].from < j
    ensures var node := g.nodes[t[j].id];
            var value := if node.value == Str("$input") || node.value == Str("$result") then t[t[j].from].output
                         else node.value;
            && Read(ApplyAll(data0, EffectsOf(env, perms, g, t[..j + 1])), node.kind + ":" + node.target) == value
            && t[j].output == Map(map["kind" := Str(node.kind), "target" := Str(node.target), "value" := value])
  {
    OutputVisit(env, perms, g, t, j);
    VisitEffects(env, perms, g, t, j);
    hide *;
    var effect := ReplyOf(env, perms, g, t[..j], t[j]).effects[0];
    LastEffectShows(data0, EffectsOf(env, perms, g, t[..j]), effect);
    EffectCell(effect);
  }

  /** Effect containment over every run of an accepted flow, however it ends:
      each effect applied is of a known kind and targets an entry of the
      matching permission list. */
  lemma {:induction false} RunsStayPermitted(def: FlowDef, env: Env, perms: Permissions,
                                             g: Graph, t: seq<Visit>, e: Effect)
    requires WellStructured(def) && Represents(def, g) && e in EffectsOf(env, perms, g, t)
    ensures e.kind in KINDS
    ensures e.kind == "database" ==> e.target in perms.databases
    ensures e.kind == "file" ==> e.target in perms.files
    ensures e.kind == "modbus" ==> e.target in perms.resources
  {
    hide ValidNode;
    forall id | id in g.nodes
      ensures ValidNode(g.nodes[id])
    {
      assert id in Ids(def.nodes);
      var i :| 0 <= i < |def.nodes| && Ids(def.nodes)[i] == id;
      assert g.nodes[id] == def.nodes[i];
    }
    RunEffectsArePermitted(env, perms, g, t, e);
  }

  lemma {:induction false} ReverseLength<T>(s: seq<T>)
    ensures |Reverse(s)| == |s|
  {
    if s != [] { ReverseLength(s[..|s| - 1]); }
  }

  /** Failure atomicity: after a failed run every key reads as before it, the
      store is exactly as before if and only if the run touched no entry that
      held `Nil`, and everything the run applied has been undone, in reverse. */
  lemma FailedRunIsAtomic(env: Env, perms: Permissions, g: Graph, t: seq<Visit>,
                          data0: Data, undo0: seq<EffectRecord>, data: Data, undo: seq<EffectRecord>)
    requires StoreAfter(RolledBack, env, perms, g, t, data0, undo0, data, undo)
    ensures forall k :: Read(data, k) == Read(data0, k)
    ensures data == data0 <==>
            forall e :: e in EffectsOf(env, perms, g, t) && KeyOf(e) in data0 ==> !data0[KeyOf(e)].Nil?
    ensures UndoAll(ApplyAll(data0, EffectsOf(env, perms, g, t)), RecordsOf(data0, EffectsOf(env, perms, g, t))) == data
    ensures |undo| == |undo0| + |EffectsOf(env, perms, g, t)|
  {
    var es := EffectsOf(env, perms, g, t);
    RollbackRestores(data0, es);
    RollbackIsInvisible(data0, es);
    ReverseLength(RecordsOf(data0, es));
    assert forall e :: e in es ==> KeyOf(e) in KeySet(es);
    if forall e :: e in es && KeyOf(e) in data0 ==> !data0[KeyOf(e)].Nil? {
      forall k | k in KeySet(es) && k in data0
        ensures !data0[k].Nil?
      {
        var e :| e in es && KeyOf(e) == k;
      }
    }
  }

  /** How a run ends, outright: with success and no error if no live edge leads
      to a node not yet run; rolled back, with no outputs, the node's own error
      and a last log line saying so, if the node it comes to fails; and faulted,
      with no outputs, if that node crashes. */
  lemma EndsExactly(res: ExecutionResult, env: Env, perms: Permissions, g: Graph, t: seq<Visit>)
    requires EndedAs(res, env, perms, g, t)
    ensures res.status == Success <==> forall i :: 0 <= i < |t| ==> Covered(g, t, i)
    ensures res.status == Success ==> res.error == None && res.outputs == OutputsOf(t)
    ensures res.status != Success ==>
              && res.outputs == map[] && NextDiscovery(g, t).Some? && NextDiscovery(g, t).value.from < |t|
              && var d := NextDiscovery(g, t).value;
                 match ReplyOf(env, perms, g, t, Visit(d.id, d.from, t[d.from].output, Nil, 0)).out
                 case Failed(e) =>
                   && res.status == RolledBack && res.error == Some(NodeFailed(e))
                   && |res.logs| > 0 && res.logs[|res.logs| - 1] == RunFailed
                 case Crashed => res.status == Faulted && res.error == None
                 case Output(_) => false
  {
    NextFromIs(g, t, 0);
    hide BreadthFirst, Replays, NextFrom, ReplyOf, LogsOf, OutputsOf, LiveList;
  }

  lemma CrashesExactly(env: Env, perms: Permissions, node: Node, input: Value, calls: nat)
    ensures NodeReply(env, perms, node, input, calls).out == Crashed <==>
            node.typ == CONDITION && Expressions.Eval(node.expression, map["result" := input], env.read).Panic?
  {
    hide Expressions.Eval;
  }

  /** The condition, given its input, takes a short circuit that skips a chain in
      which an operand does not close. */
  predicate Faulty(expression: string, input: Value, read: Lexer.NumberReader)
  {
    var lexed := Lexer.LexFrom(expression, 0, read);
    lexed.Tokens? && !Bounds.AllClose(lexed.ts, CursorSpec.OrShorts(lexed.ts, 0, map["result" := input]))
  }

  /** A run faults exactly when the node it comes to next is a condition that is
      faulty on the output it gets. */
  lemma FaultsExactly(res: ExecutionResult, env: Env, perms: Permissions, g: Graph, t: seq<Visit>)
    requires EndedAs(res, env, perms, g, t)
    ensures res.status == Faulted <==>
            && NextDiscovery(g, t).Some?
            && var d := NextDiscovery(g, t).value;
               && d.from < |t| && d.id in g.nodes && g.nodes[d.id].typ == CONDITION
               && Faulty(g.nodes[d.id].expression, t[d.from].output, env.read)
  {
    hide NodeReply, BreadthFirst, Replays, NextFrom, Lexer.LexFrom, Expressions.Eval, LogsOf, OutputsOf;
    if NextDiscovery(g, t).Some? {
      var d := NextDiscovery(g, t).value;
      var node, input := g.nodes[d.id], t[d.from].output;
      CrashesExactly(env, perms, node, input, CallsAfter(env, perms, g, t));
      Expressions.EvalPanicsExactly(node.expression, map["result" := input], env.read);
    }
  }

  /** So a flow in which no expression has an unclosed tail never faults. */
  lemma ClosedFlowsNeverFault(res: ExecutionResult, env: Env, perms: Permissions, g: Graph, t: seq<Visit>)
    requires EndedAs(res, env, perms, g, t)
    requires forall id :: id in g.nodes && g.nodes[id].typ == CONDITION ==>
               var lexed := Lexer.LexFrom(g.nodes[id].expression, 0, env.read);
               lexed.Tokens? ==> Bounds.Closed(lexed.ts)
    ensures res.status != Faulted
  {
    hide EndedAs, Lexer.LexFrom, NextFrom, Expressions.Eval;
    FaultsExactly(res, env, perms, g, t);
    if res.status == Faulted {
      var d := NextDiscovery(g, t).value;
      var vars := map["result" := t[d.from].output];
      Expressions.EvalPanicsOnlyOnUnclosed(g.nodes[d.id].expression, vars, env.read);
      Expressions.EvalPanicsExactly(g.nodes[d.id].expression, vars, env.read);
    }
  }
}
