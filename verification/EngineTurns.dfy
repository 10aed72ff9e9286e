/** Flow runs side by side on one side-effect store, as a machine whose runs take
    turns in any order. In one turn a run executes its next node, up to and
    including the node's effect on the shared store, or undoes one effect, or
    returns. */
module EngineTurns {
  import opened Values
  import opened Sequences
  import opened Graph
  import opened Rollback
  import opened Nodes
  import opened Traversal
  import opened Interleaving
  import opened Commuting
  import opened Engine

  // ---- the machine -------------------------------------------------------

  /** A flow to run: the document, its graph and trigger, what the outside world
      answers this run, and what it may write. */
  datatype Job = Job(def: FlowDef, g: Graph, root: string, env: Env, perms: Permissions)

  datatype Phase =
    | Working
    | Undoing(e: NodeError, left: nat)
    | Over(res: ExecutionResult)

  /** A run under way, with what its execution context holds. */
  datatype Run = Run(
    job: Job,
    t: seq<Visit>,
    outputs: map<string, Value>,
    logs: seq<LogEvent>,
    calls: nat,
    phase: Phase)

  function Fresh(job: Job): Run
  {
    Run(job, [], map[], [], 0, Working)
  }

  /** What a turn makes of a run, and its steps on the store. */
  datatype Move = Move(run: Run, steps: seq<Op>)

  /** What the node of visit `v` replies, by what the context holds. */
  function ReplyFor(run: Run, v: Visit): Reply
  {
    if v.id in run.job.g.nodes then NodeReply(run.job.env, run.job.perms, run.job.g.nodes[v.id], v.input, run.calls)
    else Reply(Crashed, [], run.calls, [])
  }

  /** A run takes up the reply of visit `v`, whose output was yet to be known. If
      the node failed, it turns to undoing its records. */
  function TakeUp(r: nat, run: Run, records: nat, v: Visit, reply: Reply): Move
  {
    var steps := Dos(r, reply.effects);
    var logs := run.logs + reply.logs;
    match reply.out
    case Output(o) =>
      Move(run.(t := run.t + [v.(output := o)], outputs := run.outputs[v.id := o],
                logs := logs + [NodeExecuted(v.id)], calls := reply.calls), steps)
    case Failed(e) => Move(run.(logs := logs, phase := Undoing(e, records + |steps|)), steps)
    case Crashed => Move(run.(logs := logs, phase := Over(ExecutionResult(Faulted, map[], logs, None))), steps)
  }

  /** The visit of a discovery, on the output the run has on record. */
  function VisitOf(run: Run, d: Discovery): Visit
  {
    if d.from < |run.t| && run.t[d.from].id in run.outputs then
      Visit(d.id, d.from, run.outputs[run.t[d.from].id], Nil, run.t[d.from].depth + 1)
    else Visit(d.id, d.from, Nil, Nil, 0)
  }

  /** A turn of run `r`, which has `records` effects on its roll-back log. */
  function Advance(r: nat, run: Run, records: nat): Move
  {
    match run.phase
    case Working =>
      if run.t == [] then
        var v := Visit(run.job.root, 0, Nil, Nil, 0);
        TakeUp(r, run, records, v, ReplyFor(run, v))
      else (
        match NextDiscovery(run.job.g, run.t)
        case None => Move(run.(phase := Over(ExecutionResult(Success, run.outputs, run.logs, None))), [])
        case Some(d) => TakeUp(r, run, records, VisitOf(run, d), ReplyFor(run, VisitOf(run, d)))
      )
    case Undoing(e, left) =>
      if left > 0 then Move(run.(phase := Undoing(e, left - 1)), [Undo(r)])
      else
        var logs := run.logs + [RunFailed];
        Move(run.(logs := logs, phase := Over(ExecutionResult(RolledBack, map[], logs, Some(NodeFailed(e))))), [])
    case Over(_) => Move(run, [])
  }

  function Play(w: World, steps: seq<Op>): World
  {
    if steps == [] then w else Step(Play(w, steps[..|steps| - 1]), steps[|steps| - 1])
  }

  /** The shared store with every run's records, the steps taken on it so far,
      and the runs. */
  datatype State = State(w: World, ops: seq<Op>, runs: seq<Run>)

  function Turn(s: State, r: nat): State
  {
    if r >= |s.runs| then s
    else
      var m := Advance(r, s.runs[r], |Log(s.w, r)|);
      State(Play(s.w, m.steps), s.ops + m.steps, s.runs[r := m.run])
  }

  /** Where a sequence of turns leads when all jobs are started on `data`. */
  function After(data: Data, jobs: seq<Job>, turns: seq<nat>): (s: State)
    ensures |s.runs| == |jobs|
  {
    if turns == [] then State(World(data, map[]), [], seq(|jobs|, i requires 0 <= i < |jobs| => Fresh(jobs[i])))
    else Turn(After(data, jobs, turns[..|turns| - 1]), turns[|turns| - 1])
  }

  // ---- what every turn keeps ---------------------------------------------

  /** What validation and the trigger's lookup promise of a flow they accept. */
  ghost predicate Accepted(job: Job)
  {
    WellStructured(job.def) && Represents(job.def, job.g) && UniqueTrigger(job.g, job.root)
  }

  function Effects(job: Job, t: seq<Visit>): seq<Effect>
  {
    EffectsOf(job.env, job.perms, job.g, t)
  }

  /** All that a run with visits `t` does to the store: its effects in order and,
      if it rolls back, as many undo steps. */
  function StepsOf(r: nat, job: Job, t: seq<Visit>, status: RunStatus): seq<Op>
  {
    Dos(r, Effects(job, t)) + if status == RolledBack then Undos(r, |Effects(job, t)|) else []
  }

  /** The visits are a breadth-first search, each output its node's reply. */
  ghost predicate Searched(j: Job, t: seq<Visit>)
  {
    Replays(j.env, j.perms, j.g, t) && (t == [] || BreadthFirst(j.g, t))
  }

  /** The context holds what the visits leave there. */
  ghost predicate UpToDate(run: Run)
  {
    var j := run.job;
    && run.outputs == OutputsOf(run.t)
    && run.logs == LogsOf(j.env, j.perms, j.g, run.t)
    && run.calls == CallsAfter(j.env, j.perms, j.g, run.t)
  }

  /** The search has come to a node of the flow that gives this reply. */
  ghost predicate StandsAt(j: Job, t: seq<Visit>, reply: Reply)
  {
    && t != [] && Searched(j, t)
    && NextDiscovery(j.g, t).Some?
    && NextDiscovery(j.g, t).value.from < |t| && NextDiscovery(j.g, t).value.id in j.g.nodes
    && reply == NextReply(j.env, j.perms, j.g, t)
  }

  /** It has come to a node that fails with `e`, and the log goes on with what
      that node logged. */
  ghost predicate FailedNext(j: Job, t: seq<Visit>, logs: seq<LogEvent>, e: NodeError)
  {
    exists reply ::
      StandsAt(j, t, reply) && reply.out == Failed(e) && logs == LogsOf(j.env, j.perms, j.g, t) + reply.logs
  }

  ghost predicate GoesOn(run: Run, own: seq<Op>, r: nat)
  {
    Searched(run.job, run.t) && UpToDate(run) && own == Dos(r, Effects(run.job, run.t))
  }

  ghost predicate GoesBack(j: Job, t: seq<Visit>, logs: seq<LogEvent>, own: seq<Op>, r: nat, e: NodeError, left: nat)
  {
    var n := |Effects(j, t)|;
    FailedNext(j, t, logs, e) && left <= n && own == Dos(r, Effects(j, t)) + Undos(r, n - left)
  }

  ghost predicate Returned(j: Job, t: seq<Visit>, own: seq<Op>, r: nat, res: ExecutionResult)
  {
    EndedAs(res, j.env, j.perms, j.g, t) && own == StepsOf(r, j, t, res.status)
  }

  /** A run and its own steps on the store fit together. */
  ghost predicate Fits(run: Run, own: seq<Op>, r: nat)
  {
    match run.phase
    case Working => GoesOn(run, own, r)
    case Undoing(e, left) => GoesBack(run.job, run.t, run.logs, own, r, e, left)
    case Over(res) => Returned(run.job, run.t, own, r, res)
  }

  lemma DosConcat(r: nat, a: seq<Effect>, b: seq<Effect>)
    ensures Dos(r, a) + Dos(r, b) == Dos(r, a + b)
  {
  }

  /** A node replies what replaying the visits says. */
  lemma RepliesAsReplayed(run: Run, v: Visit)
    requires UpToDate(run)
    ensures ReplyFor(run, v) == ReplyOf(run.job.env, run.job.perms, run.job.g, run.t, v)
  {
    hide NodeReply;
  }

  lemma SearchGoesOn(j: Job, t: seq<Visit>, v: Visit)
    requires Searched(j, t) && ReplyOf(j.env, j.perms, j.g, t, v).out == Output(v.output)
    requires if t == [] then RootVisit(j.g, v) else FollowsOn(j.g, t, v)
    ensures Searched(j, t + [v])
  {
    ReplaysExtend(j.env, j.perms, j.g, t, v);
    hide ReplyOf, Replays, FollowsOn, RootVisit;
    if t != [] {
      BreadthFirstExtends(j.g, t, v);
    }
  }

  lemma ContextGoesOn(run: Run, v: Visit, run': Run)
    requires UpToDate(run)
    requires var reply := ReplyOf(run.job.env, run.job.perms, run.job.g, run.t, v);
             && run'.job == run.job && run'.t == run.t + [v] && run'.outputs == run.outputs[v.id := v.output]
             && run'.logs == run.logs + reply.logs + [NodeExecuted(v.id)] && run'.calls == reply.calls
    ensures UpToDate(run')
    ensures Effects(run.job, run'.t) ==
            Effects(run.job, run.t) + ReplyOf(run.job.env, run.job.perms, run.job.g, run.t, v).effects
  {
    VisitExtends(run.job.env, run.job.perms, run.job.g, run.t, v, map[]);
    hide ReplyOf, EffectsOf, LogsOf, OutputsOf, CallsAfter;
  }

  lemma OutputKeepsFit(r: nat, run: Run, own: seq<Op>, records: nat, v: Visit, reply: Reply)
    requires run.phase.Working? && GoesOn(run, own, r) && reply.out.Output?
    requires reply == ReplyOf(run.job.env, run.job.perms, run.job.g, run.t, v)
    requires if run.t == [] then RootVisit(run.job.g, v) else FollowsOn(run.job.g, run.t, v.(output := reply.out.v))
    ensures var m := TakeUp(r, run, records, v, reply); m.run.phase.Working? && GoesOn(m.run, own + m.steps, r)
  {
    var j := run.job;
    var visit := v.(output := reply.out.v);
    var m := TakeUp(r, run, records, v, reply);
    ReplyIgnoresTheRest(j.env, j.perms, j.g, run.t, v, visit);
    hide ReplyOf, RootVisit, FollowsOn, Searched, UpToDate, Effects, Dos;
    SearchGoesOn(j, run.t, visit);
    ContextGoesOn(run, visit, m.run);
    DosConcat(r, Effects(j, run.t), reply.effects);
  }

  lemma TriggerReplies(job: Job, v: Visit)
    requires Accepted(job) && v == Visit(job.root, 0, Nil, Nil, 0)
    ensures ReplyOf(job.env, job.perms, job.g, [], v).out.Output?
  {
  }

  lemma TriggerKeepsFit(r: nat, run: Run, own: seq<Op>, records: nat)
    requires Accepted(run.job) && run.phase.Working? && Fits(run, own, r) && run.t == []
    ensures var m := Advance(r, run, records); Fits(m.run, own + m.steps, r)
  {
    var v := Visit(run.job.root, 0, Nil, Nil, 0);
    RepliesAsReplayed(run, v);
    TriggerReplies(run.job, v);
    hide GoesOn, TakeUp, ReplyFor, ReplyOf, Represents, WellStructured;
    OutputKeepsFit(r, run, own, records, v, ReplyFor(run, v));
  }

  lemma DiscoveryInFlow(job: Job, t: seq<Visit>)
    requires Accepted(job) && BreadthFirst(job.g, t) && NextDiscovery(job.g, t).Some?
    ensures var d := NextDiscovery(job.g, t).value;
            d.from < |t| && d.id in job.g.nodes && d.id !in VisitIds(t)
  {
    NextFromIs(job.g, t, 0);
    VisitsAreDistinct(job.g, t);
    var d := NextDiscovery(job.g, t).value;
    LiveEdges(job.def, job.g, t[d.from]);
  }

  lemma RolledBackEnds(j: Job, t: seq<Visit>, logs: seq<LogEvent>, e: NodeError)
    requires FailedNext(j, t, logs, e)
    ensures EndedAs(ExecutionResult(RolledBack, map[], logs + [RunFailed], Some(NodeFailed(e))), j.env, j.perms, j.g, t)
  {
    hide Replays, BreadthFirst, NextDiscovery, ReplyOf, LogsOf, OutputsOf;
  }

  lemma FaultEnds(j: Job, t: seq<Visit>, reply: Reply)
    requires StandsAt(j, t, reply) && reply.out.Crashed?
    ensures EndedAs(ExecutionResult(Faulted, map[], LogsOf(j.env, j.perms, j.g, t) + reply.logs, None),
                    j.env, j.perms, j.g, t)
  {
    hide Replays, BreadthFirst, NextDiscovery, ReplyOf, LogsOf, OutputsOf;
  }

  lemma StepsWithoutUndo(r: nat, job: Job, t: seq<Visit>, status: RunStatus)
    requires status != RolledBack
    ensures StepsOf(r, job, t, status) == Dos(r, Effects(job, t))
  {
    hide Dos, Effects;
  }

  /** What a node without an output leaves of the run. */
  lemma StopKeepsFit(r: nat, run: Run, own: seq<Op>, records: nat, v: Visit, reply: Reply)
    requires run.phase.Working? && GoesOn(run, own, r) && records == |Effects(run.job, run.t)|
    requires StandsAt(run.job, run.t, reply) && !reply.out.Output? && reply.effects == []
    ensures var m := TakeUp(r, run, records, v, reply); Fits(m.run, own + m.steps, r)
  {
    hide Searched, StandsAt, Effects, LogsOf, OutputsOf, CallsAfter, EndedAs;
    assert Dos(r, []) == [] && own + [] == own;
    if reply.out.Failed? {
      assert FailedNext(run.job, run.t, run.logs + reply.logs, reply.out.e);
      hide FailedNext;
      assert Undos(r, 0) == [];
    } else {
      FaultEnds(run.job, run.t, reply);
      StepsWithoutUndo(r, run.job, run.t, Faulted);
    }
  }

  lemma SilentStop(env: Env, perms: Permissions, g: Graph, before: seq<Visit>, v: Visit)
    requires !ReplyOf(env, perms, g, before, v).out.Output?
    ensures ReplyOf(env, perms, g, before, v).effects == []
  {
    if v.id in g.nodes {
      FailuresHaveNoEffect(env, perms, g.nodes[v.id], v.input, CallsAfter(env, perms, g, before));
    }
    hide NodeReply;
  }

  /** The next discovery's visit, and what its node replies. */
  lemma NextVisit(run: Run)
    requires Accepted(run.job) && Searched(run.job, run.t) && UpToDate(run) && run.t != []
    requires NextDiscovery(run.job.g, run.t).Some?
    ensures var v := VisitOf(run, NextDiscovery(run.job.g, run.t).value);
            var reply := ReplyFor(run, v);
            && reply == ReplyOf(run.job.env, run.job.perms, run.job.g, run.t, v)
            && StandsAt(run.job, run.t, reply)
            && (!reply.out.Output? ==> reply.effects == [])
            && (forall o :: FollowsOn(run.job.g, run.t, v.(output := o)))
  {
    var j := run.job;
    var d := NextDiscovery(j.g, run.t).value;
    DiscoveryInFlow(j, run.t);
    VisitsAreDistinct(j.g, run.t);
    CurrentOutput(run.outputs, run.t, d.from);
    var v := VisitOf(run, d);
    RepliesAsReplayed(run, v);
    hide ReplyFor, Replays, BreadthFirst, NextDiscovery, OutputsOf, LogsOf, CallsAfter, Accepted;
    ReplyIgnoresTheRest(j.env, j.perms, j.g, run.t, v, Visit(d.id, d.from, run.t[d.from].output, Nil, 0));
    hide ReplyOf;
    if !ReplyFor(run, v).out.Output? {
      SilentStop(j.env, j.perms, j.g, run.t, v);
    }
  }

  lemma NodeKeepsFit(r: nat, run: Run, own: seq<Op>, records: nat)
    requires Accepted(run.job) && run.phase.Working? && Fits(run, own, r) && run.t != []
    requires NextDiscovery(run.job.g, run.t).Some? && records == |Effects(run.job, run.t)|
    ensures var m := Advance(r, run, records); Fits(m.run, own + m.steps, r)
  {
    NextVisit(run);
    hide Accepted, Searched, UpToDate, NextDiscovery, VisitOf, ReplyFor, ReplyOf, FollowsOn, StandsAt, TakeUp, Effects;
    var v := VisitOf(run, NextDiscovery(run.job.g, run.t).value);
    var reply := ReplyFor(run, v);
    if reply.out.Output? {
      OutputKeepsFit(r, run, own, records, v, reply);
    } else {
      StopKeepsFit(r, run, own, records, v, reply);
    }
  }

  lemma ReturnKeepsFit(r: nat, run: Run, own: seq<Op>, records: nat)
    requires run.phase.Working? && Fits(run, own, r) && run.t != [] && NextDiscovery(run.job.g, run.t).None?
    ensures var m := Advance(r, run, records); Fits(m.run, own + m.steps, r)
  {
    hide Replays, BreadthFirst, NextFrom, Effects, LogsOf, OutputsOf, CallsAfter, Dos;
    assert own + [] == own;
  }

  lemma OneMoreUndo(r: nat, before: seq<Op>, n: nat)
    ensures (before + Undos(r, n)) + [Undo(r)] == before + Undos(r, n + 1)
  {
  }

  lemma UndoOne(j: Job, t: seq<Visit>, logs: seq<LogEvent>, own: seq<Op>, r: nat, e: NodeError, left: nat)
    requires GoesBack(j, t, logs, own, r, e, left) && left > 0
    ensures GoesBack(j, t, logs, own + [Undo(r)], r, e, left - 1)
  {
    hide FailedNext, Effects, Dos, Undos;
    OneMoreUndo(r, Dos(r, Effects(j, t)), |Effects(j, t)| - left);
  }

  lemma AllUndoneReturns(j: Job, t: seq<Visit>, logs: seq<LogEvent>, own: seq<Op>, r: nat, e: NodeError)
    requires GoesBack(j, t, logs, own, r, e, 0)
    ensures Returned(j, t, own, r, ExecutionResult(RolledBack, map[], logs + [RunFailed], Some(NodeFailed(e))))
  {
    RolledBackEnds(j, t, logs, e);
    hide FailedNext, EndedAs, Effects, Dos, Undos;
  }

  lemma UndoKeepsFit(r: nat, run: Run, own: seq<Op>, records: nat)
    requires run.phase.Undoing? && Fits(run, own, r)
    ensures var m := Advance(r, run, records); Fits(m.run, own + m.steps, r)
  {
    hide GoesBack, Returned;
    var Undoing(e, left) := run.phase;
    if left > 0 {
      UndoOne(run.job, run.t, run.logs, own, r, e, left);
    } else {
      AllUndoneReturns(run.job, run.t, run.logs, own, r, e);
      assert own + [] == own;
    }
  }

  lemma OverKeepsFit(r: nat, run: Run, own: seq<Op>, records: nat)
    requires run.phase.Over? && Fits(run, own, r)
    ensures var m := Advance(r, run, records); Fits(m.run, own + m.steps, r)
  {
    hide Fits;
    assert own + [] == own;
  }

  lemma AdvanceFrame(r: nat, run: Run, records: nat)
    ensures Advance(r, run, records).run.job == run.job
    ensures forall op :: op in Advance(r, run, records).steps ==> op.run == r
  {
    hide NodeReply, NextDiscovery;
  }

  /** A turn keeps a run and its own steps fitting together. */
  lemma AdvanceKeepsFit(r: nat, run: Run, own: seq<Op>, records: nat)
    requires Accepted(run.job) && Fits(run, own, r)
    requires run.phase.Working? ==> records == |Effects(run.job, run.t)|
    ensures var m := Advance(r, run, records); Fits(m.run, own + m.steps, r)
  {
    hide Accepted, Fits, Advance, Effects, NextDiscovery;
    match run.phase {
      case Working =>
        if run.t == [] {
          TriggerKeepsFit(r, run, own, records);
        } else if NextDiscovery(run.job.g, run.t).None? {
          ReturnKeepsFit(r, run, own, records);
        } else {
          NodeKeepsFit(r, run, own, records);
        }
      case Undoing(_, _) =>
        UndoKeepsFit(r, run, own, records);
      case Over(_) =>
        OverKeepsFit(r, run, own, records);
    }
  }

  lemma {:induction false} PlayExec(data: Data, ops: seq<Op>, steps: seq<Op>)
    ensures Play(Exec(data, ops), steps) == Exec(data, ops + steps)
    decreases |steps|
  {
    hide Exec, Step;
    if steps == [] {
      assert ops + steps == ops;
    } else {
      var n := |steps| - 1;
      PlayExec(data, ops, steps[..n]);
      assert ops + steps == (ops + steps[..n]) + [steps[n]];
      ExecSnoc(data, ops + steps[..n], steps[n]);
    }
  }

  /** The roll-back log of a run that goes on has a record for every effect. */
  lemma RecordsOfGoing(data: Data, ops: seq<Op>, run: Run, r: nat)
    requires GoesOn(run, Own(ops, r), r)
    ensures |Log(Exec(data, ops), r)| == |Effects(run.job, run.t)|
  {
    hide Exec, Log, Searched, UpToDate, Effects, Own;
    OwnLogLength(data, ops, r);
    DosApply(data, r, Effects(run.job, run.t));
  }

  /** The store is what the steps made of it, only the jobs' runs took steps, and
      every run fits its own. */
  ghost predicate Sound(data: Data, jobs: seq<Job>, s: State)
  {
    && |s.runs| == |jobs| && s.w == Exec(data, s.ops)
    && (forall op :: op in s.ops ==> op.run < |jobs|)
    && forall r :: 0 <= r < |jobs| ==> s.runs[r].job == jobs[r] && Fits(s.runs[r], Own(s.ops, r), r)
  }

  lemma FreshFits(job: Job, r: nat)
    ensures Fits(Fresh(job), Own([], r), r)
  {
  }

  lemma FitsWorking(run: Run, own: seq<Op>, r: nat)
    requires run.phase.Working? && Fits(run, own, r)
    ensures GoesOn(run, own, r)
  {
  }

  lemma MoverFits(data: Data, jobs: seq<Job>, s: State, r: nat)
    requires (forall j :: j in jobs ==> Accepted(j)) && Sound(data, jobs, s) && r < |jobs|
    ensures var m := Advance(r, s.runs[r], |Log(s.w, r)|);
            && m.run.job == jobs[r] && Fits(m.run, Own(s.ops, r) + m.steps, r)
            && forall op :: op in m.steps ==> op.run == r
  {
    hide Exec, Log, Accepted, Fits, Advance, Own;
    var run := s.runs[r];
    assert jobs[r] in jobs;
    if run.phase.Working? {
      FitsWorking(run, Own(s.ops, r), r);
      RecordsOfGoing(data, s.ops, run, r);
    }
    AdvanceKeepsFit(r, run, Own(s.ops, r), |Log(s.w, r)|);
    AdvanceFrame(r, run, |Log(s.w, r)|);
  }

  lemma TurnKeepsSound(data: Data, jobs: seq<Job>, s: State, r: nat)
    requires (forall j :: j in jobs ==> Accepted(j)) && Sound(data, jobs, s)
    ensures Sound(data, jobs, Turn(s, r))
  {
    if r < |jobs| {
      MoverFits(data, jobs, s, r);
      hide Exec, Log, Play, Accepted, Fits, Advance, Own;
      var m := Advance(r, s.runs[r], |Log(s.w, r)|);
      PlayExec(data, s.ops, m.steps);
      forall q | 0 <= q < |jobs|
        ensures Turn(s, r).runs[q].job == jobs[q] && Fits(Turn(s, r).runs[q], Own(Turn(s, r).ops, q), q)
      {
        OwnAppended(s.ops, m.steps, r, q);
      }
    }
  }

  /** In whatever order runs take turns, every one of them stays a breadth-first
      search of its own flow on its own answers, with the steps that makes. */
  lemma {:induction false} TurnsKeepSound(data: Data, jobs: seq<Job>, turns: seq<nat>)
    requires forall j :: j in jobs ==> Accepted(j)
    ensures Sound(data, jobs, After(data, jobs, turns))
  {
    hide Accepted, Fits, Turn;
    if turns == [] {
      forall r | 0 <= r < |jobs|
        ensures Fits(Fresh(jobs[r]), Own([], r), r)
      {
        FreshFits(jobs[r], r);
      }
    } else {
      TurnsKeepSound(data, jobs, turns[..|turns| - 1]);
      TurnKeepsSound(data, jobs, After(data, jobs, turns[..|turns| - 1]), turns[|turns| - 1]);
    }
  }

  // ---- every run returns -------------------------------------------------

  lemma {:induction false} EffectsAreFew(j: Job, t: seq<Visit>)
    ensures |Effects(j, t)| <= |t|
  {
    if t != [] {
      var before, v := t[..|t| - 1], t[|t| - 1];
      EffectsAreFew(j, before);
      if v.id in j.g.nodes {
        FailuresHaveNoEffect(j.env, j.perms, j.g.nodes[v.id], v.input, CallsAfter(j.env, j.perms, j.g, before));
      }
      hide NodeReply;
    }
  }

  lemma FewVisits(j: Job, t: seq<Visit>)
    requires t == [] || BreadthFirst(j.g, t)
    ensures |t| <= |j.g.nodes|
  {
    if t != [] {
      VisitsAreDistinct(j.g, t);
      Pigeonhole(VisitIds(t), j.g.nodes.Keys);
    }
  }

  /** How many turns a run may still need. */
  function TurnsLeft(run: Run): int
  {
    match run.phase
    case Working => 2 * |run.job.g.nodes| + 2 - |run.t|
    case Undoing(_, left) => left + 1
    case Over(_) => 0
  }

  lemma FitsBounds(run: Run, own: seq<Op>, r: nat)
    requires Fits(run, own, r)
    ensures |run.t| <= |run.job.g.nodes|
    ensures run.phase.Undoing? ==> run.phase.left <= |run.job.g.nodes|
  {
    hide Replays, BreadthFirst, NextDiscovery, NextReply, EffectsOf, LogsOf, OutputsOf, Dos, Undos;
    FewVisits(run.job, run.t);
    EffectsAreFew(run.job, run.t);
  }

  lemma AdvanceMoves(r: nat, run: Run, records: nat)
    ensures var run' := Advance(r, run, records).run;
            && (run.phase.Working? && run'.phase.Working? ==> |run'.t| == |run.t| + 1)
            && (run.phase.Undoing? && run'.phase.Undoing? ==> run'.phase.left < run.phase.left)
            && (run.phase.Undoing? ==> !run'.phase.Working?)
            && (run.phase.Over? ==> run' == run)
  {
    hide NodeReply, NextDiscovery;
  }

  lemma TurnShrinks(data: Data, jobs: seq<Job>, s: State, r: nat)
    requires (forall j :: j in jobs ==> Accepted(j)) && Sound(data, jobs, s) && r < |jobs|
    ensures !s.runs[r].phase.Over? ==> TurnsLeft(Turn(s, r).runs[r]) < TurnsLeft(s.runs[r])
    ensures s.runs[r].phase.Over? ==> Turn(s, r).runs[r].phase.Over?
  {
    MoverFits(data, jobs, s, r);
    var m := Advance(r, s.runs[r], |Log(s.w, r)|);
    AdvanceMoves(r, s.runs[r], |Log(s.w, r)|);
    hide Fits, Accepted, Advance, Own, Log, Exec;
    FitsBounds(s.runs[r], Own(s.ops, r), r);
    FitsBounds(m.run, Own(s.ops, r) + m.steps, r);
  }

  function TurnsOf(turns: seq<nat>, r: nat): nat
  {
    if turns == [] then 0 else TurnsOf(turns[..|turns| - 1], r) + (if turns[|turns| - 1] == r then 1 else 0)
  }

  lemma FreshTurns(job: Job)
    ensures TurnsLeft(Fresh(job)) == 2 * |job.g.nodes| + 2
  {
  }

  lemma {:induction false} TurnsCount(data: Data, jobs: seq<Job>, turns: seq<nat>, r: nat)
    requires (forall j :: j in jobs ==> Accepted(j)) && r < |jobs|
    ensures var run := After(data, jobs, turns).runs[r];
            run.phase.Over? || TurnsLeft(run) <= 2 * |jobs[r].g.nodes| + 2 - TurnsOf(turns, r)
  {
    hide Accepted, Advance, Log, Play, Sound, TurnsLeft;
    if turns == [] {
      assert TurnsLeft(Fresh(jobs[r])) == 2 * |jobs[r].g.nodes| + 2 by { FreshTurns(jobs[r]); }
    } else {
      var n := |turns| - 1;
      TurnsCount(data, jobs, turns[..n], r);
      TurnsKeepSound(data, jobs, turns[..n]);
      var s := After(data, jobs, turns[..n]);
      if turns[n] == r {
        TurnShrinks(data, jobs, s, r);
      }
    }
  }

  lemma RunsOut(run: Run)
    requires |run.t| <= |run.job.g.nodes|
    ensures TurnsLeft(run) <= 0 ==> run.phase.Over?
  {
  }

  /** Nobody can hold a run up: once it has had its share of turns, two for each
      node and two more, it has returned as an execution of its flow ends,
      whatever the others did meanwhile. */
  lemma RunsReturn(data: Data, jobs: seq<Job>, turns: seq<nat>, r: nat)
    requires (forall j :: j in jobs ==> Accepted(j)) && r < |jobs|
    requires TurnsOf(turns, r) >= 2 * |jobs[r].g.nodes| + 2
    ensures var run := After(data, jobs, turns).runs[r];
            && run.phase.Over?
            && EndedAs(run.phase.res, jobs[r].env, jobs[r].perms, jobs[r].g, run.t)
  {
    TurnsCount(data, jobs, turns, r);
    TurnsKeepSound(data, jobs, turns);
    hide After, Accepted, EndedAs, Own;
    var s := After(data, jobs, turns);
    assert Fits(s.runs[r], Own(s.ops, r), r);
    FitsBounds(s.runs[r], Own(s.ops, r), r);
    RunsOut(s.runs[r]);
  }
}
