/** Distributing a task: what one subtask does to its record, how the outcomes
    are summed up, and what the two mean on top of the worker pool. */
module Distribution {
  import opened Values
  import opened Sequences
  import opened Catalog
  import opened Decomposer
  import opened Sorting
  import opened WorkerPool

  /** A subtask's record in the task. */
  datatype Subtask = Subtask(agentId: string, description: string, status: Status, result: string)

  /** What one subtask meets outside: stored agents and servers, the answer to
      its `k`-th tool call, whether its context is done at its `k`-th look, and
      whether the store accepts its `k`-th status update. */
  datatype World = World(
    agents: string -> Option<Agent>,
    servers: string -> Option<Server>,
    answer: (nat, Skill) -> Option<string>,
    done: nat -> bool,
    accepts: nat -> bool)

  /** A context that is done stays done. */
  ghost predicate StaysDone(w: World)
  {
    forall i, j :: 0 <= i <= j && w.done(i) ==> w.done(j)
  }

  // ---- what a subtask should come to ------------------------------------

  predicate Assigned(w: World, spec: SubtaskSpec)
  {
    spec.agentId != "" && w.agents(spec.agentId).Some?
  }

  /** The `k`-th skill is tried in time and its tool answers. */
  predicate SkillWorks(w: World, spec: SubtaskSpec, k: nat)
    requires k < |spec.skills|
  {
    var skill := spec.skills[k];
    var server := w.servers(skill.serverId);
    !w.done(k) && server.Some? && server.value.transportParses && w.answer(k, skill).Some?
  }

  predicate Completes(w: World, spec: SubtaskSpec)
  {
    && Assigned(w, spec)
    && (forall k :: 0 <= k < |spec.skills| ==> SkillWorks(w, spec, k))
    && !w.done(|spec.skills|)
  }

  /** The answers of the skills from `k` on, up to the first that does not work. */
  function AnswersFrom(w: World, spec: SubtaskSpec, k: nat): seq<string>
    requires k <= |spec.skills|
    decreases |spec.skills| - k
  {
    if k == |spec.skills| || !SkillWorks(w, spec, k) then []
    else [w.answer(k, spec.skills[k]).value] + AnswersFrom(w, spec, k + 1)
  }

  function NonEmpty(parts: seq<string>): seq<string>
  {
    if parts == [] then []
    else NonEmpty(parts[..|parts| - 1]) + (if parts[|parts| - 1] == "" then [] else [parts[|parts| - 1]])
  }

  /** The outcome subtask `i` should have. */
  function OutcomeOf(w: World, spec: SubtaskSpec, i: nat): SubtaskOutcome
  {
    var result := if Assigned(w, spec) then Joined(NonEmpty(AnswersFrom(w, spec, 0)), "\n") else "";
    SubtaskOutcome(i, result, !Completes(w, spec))
  }

  /** The statuses subtask `i` goes through. */
  function Trail(w: World, spec: SubtaskSpec): seq<Status>
  {
    if Assigned(w, spec) then [Running, if Completes(w, spec) then Success else Failed] else [Failed]
  }

  /** The non-empty parts are these, in the same order. */
  lemma {:induction false} NonEmptyInOrder(parts: seq<string>) returns (at: seq<nat>)
    ensures ListedAt(parts, at, NonEmpty(parts))
    ensures forall i :: 0 <= i < |parts| ==> (i in at <==> parts[i] != "")
  {
    hide ListedAt;
    at := [];
    if parts == [] {
      NothingListed<string>();
    } else {
      var n := |parts| - 1;
      at := NonEmptyInOrder(parts[..n]);
      assert forall i :: 0 <= i < n ==> parts[..n][i] == parts[i];
      at := ListLonger(parts, at, NonEmpty(parts[..n]), parts[n] != "");
    }
  }

  lemma {:induction false} AnswersUpTo(w: World, spec: SubtaskSpec, k: nat)
    requires k <= |spec.skills|
    ensures var end := k + |AnswersFrom(w, spec, k)|;
            && end <= |spec.skills|
            && (forall j :: k <= j < end ==>
                  SkillWorks(w, spec, j) && w.answer(j, spec.skills[j]) == Some(AnswersFrom(w, spec, k)[j - k]))
            && (end < |spec.skills| ==> !SkillWorks(w, spec, end))
    decreases |spec.skills| - k
  {
    if k < |spec.skills| && SkillWorks(w, spec, k) {
      AnswersUpTo(w, spec, k + 1);
      var rest := AnswersFrom(w, spec, k + 1);
      var all := AnswersFrom(w, spec, k);
      assert all == [w.answer(k, spec.skills[k]).value] + rest;
      forall j | k <= j < k + |all|
        ensures SkillWorks(w, spec, j) && w.answer(j, spec.skills[j]) == Some(all[j - k])
      {
        if j > k {
          assert all[j - k] == rest[j - (k + 1)];
        }
      }
    }
  }

  /** When a subtask has no error, outright: it has an agent that is known; for
      each skill in turn the context is not done, the server is known with a
      transport that parses and the call is answered; and at the end the context
      is not done. */
  lemma CompletesExactly(w: World, spec: SubtaskSpec, i: nat)
    ensures var o := OutcomeOf(w, spec, i);
            && o.index == i
            && (!o.err <==>
                  && spec.agentId != "" && w.agents(spec.agentId).Some? && !w.done(|spec.skills|)
                  && forall k :: 0 <= k < |spec.skills| ==>
                       var server := w.servers(spec.skills[k].serverId);
                       && !w.done(k) && server.Some? && server.value.transportParses
                       && w.answer(k, spec.skills[k]).Some?)
            && (spec.agentId == "" || w.agents(spec.agentId).None? ==> o.result == "")
  {
    hide Joined, NonEmpty, AnswersFrom;
    assert forall k :: 0 <= k < |spec.skills| ==>
        (SkillWorks(w, spec, k) <==>
           var server := w.servers(spec.skills[k].serverId);
           && !w.done(k) && server.Some? && server.value.transportParses && w.answer(k, spec.skills[k]).Some?);
  }

  /** What it answers, outright: the non-empty answers of its skills in order, up
      to the first that does not work, joined by line breaks. */
  lemma AnswersExactly(w: World, spec: SubtaskSpec, i: nat)
    returns (answers: seq<string>, at: seq<nat>, kept: seq<string>)
    ensures |answers| <= |spec.skills|
    ensures forall k :: 0 <= k < |answers| ==>
              var server := w.servers(spec.skills[k].serverId);
              && !w.done(k) && server.Some? && server.value.transportParses
              && w.answer(k, spec.skills[k]) == Some(answers[k])
    ensures |answers| < |spec.skills| ==>
              var k := |answers|;
              var server := w.servers(spec.skills[k].serverId);
              w.done(k) || server.None? || !server.value.transportParses || w.answer(k, spec.skills[k]).None?
    ensures ListedAt(answers, at, kept) && forall k :: 0 <= k < |answers| ==> (k in at <==> answers[k] != "")
    ensures spec.agentId != "" && w.agents(spec.agentId).Some? ==> OutcomeOf(w, spec, i).result == Joined(kept, "\n")
  {
    answers := AnswersFrom(w, spec, 0);
    kept := NonEmpty(answers);
    at := NonEmptyInOrder(answers);
    AnswersUpTo(w, spec, 0);
    hide Joined, NonEmpty, AnswersFrom, ListedAt, Completes;
    forall k | 0 <= k < |answers|
      ensures var server := w.servers(spec.skills[k].serverId);
              && !w.done(k) && server.Some? && server.value.transportParses
              && w.answer(k, spec.skills[k]) == Some(answers[k])
    {
      assert SkillWorks(w, spec, k);
      assert answers[k - 0] == answers[k];
    }
  }

  // ---- the program ------------------------------------------------------

  lemma {:induction false} JoinedIsNonEmpty(parts: seq<string>)
    ensures Joined(NonEmpty(parts), "\n") == "" <==> NonEmpty(parts) == []
    ensures forall p :: p in NonEmpty(parts) ==> p != ""
  {
    if parts != [] {
      JoinedIsNonEmpty(parts[..|parts| - 1]);
      var all := NonEmpty(parts);
      if |all| > 1 {
        assert |Joined(all, "\n")| >= |all[|all| - 1]|;
      }
    }
  }

  lemma JoinedAppend(parts: seq<string>, p: string)
    ensures Joined(parts + [p], "\n") == if parts == [] then p else Joined(parts, "\n") + "\n" + p
  {
    assert (parts + [p])[..|parts|] == parts;
  }

  /** Joins the non-empty parts with line breaks. */
  method JoinNonEmpty(parts: seq<string>) returns (out: string)
    ensures out == Joined(NonEmpty(parts), "\n")
  {
    out := "";
    for i := 0 to |parts|
      invariant out == Joined(NonEmpty(parts[..i]), "\n")
    {
      ghost var before := NonEmpty(parts[..i]);
      assert parts[..i + 1][..i] == parts[..i];
      JoinedIsNonEmpty(parts[..i]);
      JoinedAppend(before, parts[i]);
      if parts[i] == "" {
        assert NonEmpty(parts[..i + 1]) == before + [] == before;
        continue;
      }
      if i > 0 && out != "" {
        out := out + "\n";
      }
      out := out + parts[i];
    }
    assert parts[..|parts|] == parts;
  }

  function Marked(tracked: bool, subtasks: seq<Subtask>, idx: nat, status: Status, result: string): (r: seq<Subtask>)
    requires tracked ==> idx < |subtasks|
  {
    if !tracked then subtasks
    else if status == Success || status == Failed then
      subtasks[idx := subtasks[idx].(status := status, result := result)]
    else subtasks[idx := subtasks[idx].(status := status)]
  }

  /** Records a status; a final one also records the result so far. Nothing is
      recorded for a task without a tenant. The record is kept even if the store
      then refuses the update; if it accepts, its copy is the whole list. */
  method MarkStatus(accepts: bool, stored: seq<Subtask>, tracked: bool,
                    subtasks: array<Subtask>, idx: nat, status: Status, result: string)
    returns (stored': seq<Subtask>)
    requires tracked ==> idx < subtasks.Length
    modifies subtasks
    ensures subtasks[..] == Marked(tracked, old(subtasks[..]), idx, status, result)
    ensures stored' == if tracked && accepts then subtasks[..] else stored
  {
    if !tracked {
      return stored;
    }
    var sub := subtasks[idx].(status := status);
    if status == Success || status == Failed {
      sub := sub.(result := result);
    }
    subtasks[idx] := sub;
    stored' := if accepts then subtasks[..] else stored;
  }

  /** Tries the skills in order until one does not work. */
  method RunSkills(w: World, spec: SubtaskSpec) returns (outputs: seq<string>, failed: bool)
    requires StaysDone(w) && Assigned(w, spec)
    ensures outputs == AnswersFrom(w, spec, 0)
    ensures failed <==> !Completes(w, spec)
  {
    outputs, failed := [], false;
    var k, looks := 0, 0;
    while k < |spec.skills|
      invariant k <= |spec.skills| && looks == k && !failed
      invariant forall i :: 0 <= i < k ==> SkillWorks(w, spec, i)
      invariant AnswersFrom(w, spec, 0) == outputs + AnswersFrom(w, spec, k)
    {
      var skill := spec.skills[k];
      looks := looks + 1;
      if w.done(looks - 1) {
        assert !SkillWorks(w, spec, k);
        break;
      }
      var server := w.servers(skill.serverId);
      if server.None? {
        failed := true;
        break;
      }
      if !server.value.transportParses {
        failed := true;
        break;
      }
      var answer := w.answer(k, skill);
      if answer.None? {
        failed := true;
        break;
      }
      outputs := outputs + [answer.value];
      k := k + 1;
    }
    assert k < |spec.skills| ==> !SkillWorks(w, spec, k);
    if !failed && w.done(looks) {
      failed := true;
    }
  }

  /** Runs subtask `idx` and keeps its record up to date. The outcome is the one
      the world calls for, the record ends with the matching status and the same
      result whatever the store accepted, and no other record is touched. The
      store's copy of the list is the final one if it accepted the last update,
      and the old one if it accepted none. */
  method RunSubtask(w: World, tracked: bool, subtasks: array<Subtask>, idx: nat, spec: SubtaskSpec,
                    stored0: seq<Subtask>)
    returns (out: SubtaskOutcome, stored: seq<Subtask>, ghost trail: seq<Status>)
    requires StaysDone(w) && (tracked ==> idx < subtasks.Length)
    modifies subtasks
    ensures out == OutcomeOf(w, spec, idx)
    ensures trail == Trail(w, spec)
    ensures trail == if spec.agentId != "" && w.agents(spec.agentId).Some?
                     then [Running, if out.err then Failed else Success] else [Failed]
    ensures !tracked ==> subtasks[..] == old(subtasks[..])
    ensures tracked ==>
              subtasks[..] == old(subtasks[..])[idx :=
                old(subtasks[idx]).(status := if out.err then Failed else Success, result := out.result)]
    ensures tracked && w.accepts(|trail| - 1) ==> stored == subtasks[..]
    ensures !tracked || (forall k :: 0 <= k < |trail| ==> !w.accepts(k)) ==> stored == stored0
  {
    assert !Assigned(w, spec) ==> !Completes(w, spec);
    hide Completes, AnswersFrom, NonEmpty, Joined;
    out, stored := SubtaskOutcome(idx, "", false), stored0;
    trail := [];
    if spec.agentId == "" {
      out := out.(err := true);
      stored := MarkStatus(w.accepts(0), stored, tracked, subtasks, idx, Failed, out.result);
      trail := [Failed];
      return;
    }
    var agent := w.agents(spec.agentId);
    if agent.None? {
      out := out.(err := true);
      stored := MarkStatus(w.accepts(0), stored, tracked, subtasks, idx, Failed, out.result);
      trail := [Failed];
      return;
    }
    stored := MarkStatus(w.accepts(0), stored, tracked, subtasks, idx, Running, out.result);
    trail := [Running];
    var outputs, failed := RunSkills(w, spec);
    var result := JoinNonEmpty(outputs);
    out := out.(err := failed, result := result);
    if failed {
      stored := MarkStatus(w.accepts(1), stored, tracked, subtasks, idx, Failed, out.result);
      trail := trail + [Failed];
      return;
    }
    stored := MarkStatus(w.accepts(1), stored, tracked, subtasks, idx, Success, out.result);
    trail := trail + [Success];
  }

  datatype Line = SubtaskLine(i: nat, result: string) | ContextLine

  datatype Summary = Summary(status: Status, completed: int, failed: nat, lines: seq<Line>)

  predicate LowerIndex(a: SubtaskOutcome, b: SubtaskOutcome)
  {
    a.index < b.index
  }

  function CountFailed(results: seq<SubtaskOutcome>): (n: nat)
    ensures n <= |results|
  {
    if results == [] then 0
    else CountFailed(results[..|results| - 1]) + (if results[|results| - 1].err then 1 else 0)
  }

  function LinesOf(results: seq<SubtaskOutcome>): seq<Line>
  {
    if results == [] then []
    else
      var n := |results| - 1;
      LinesOf(results[..n]) + (if results[n].result != "" then [SubtaskLine(n, results[n].result)] else [])
  }

  function SummaryOf(results: seq<SubtaskOutcome>, cancelled: bool, cancelledLater: bool): Summary
  {
    var failed := CountFailed(results);
    Summary(
      if failed > 0 || cancelled then Failed else Success,
      |results| - failed,
      failed,
      LinesOf(results) + if cancelledLater then [ContextLine] else [])
  }

  /** Sums up the outcomes. The context is looked at once for the status and
      once more for the closing line. */
  method Finalize(results: array<SubtaskOutcome>, cancelled: bool, cancelledLater: bool) returns (summary: Summary)
    modifies results
    ensures results[..] == SortStable(LowerIndex, old(results[..]))
    ensures summary == SummaryOf(results[..], cancelled, cancelledLater)
  {
    hide SortStable;
    SortInPlace(LowerIndex, results);
    var failed := 0;
    var lines: seq<Line> := [];
    for i := 0 to results.Length
      invariant results[..] == SortStable(LowerIndex, old(results[..]))
      invariant failed == CountFailed(results[..i])
      invariant lines == LinesOf(results[..i])
    {
      assert results[..i + 1][..i] == results[..i];
      if results[i].err {
        failed := failed + 1;
      }
      if results[i].result != "" {
        lines := lines + [SubtaskLine(i, results[i].result)];
      }
    }
    assert results[..results.Length] == results[..];
    var status := Success;
    if failed > 0 || cancelled {
      status := Failed;
    }
    if cancelledLater {
      lines := lines + [ContextLine];
    }
    summary := Summary(status, results.Length - failed, failed, lines);
  }

  // ---- the subtasks in the pool -----------------------------------------

  /** The steps a subtask's body takes in the pool. */
  function BodySteps(w: World, spec: SubtaskSpec, i: nat): seq<Event>
  {
    var o := OutcomeOf(w, spec, i);
    (if Assigned(w, spec) then [Begin(i)] else []) + [Conclude(i, o.result, o.err)]
  }

  lemma Sizes(workers: nat, n: nat, s: Pool)
    requires Inv(workers, n, s)
    ensures Sized(s, n)
  {
  }

  /** What `RunSubtask` does is a run of the pool: from a launched subtask, its
      steps are possible, pass through the trail's statuses, and leave it
      concluded with its outcome. */
  lemma BodyRunsInPool(workers: nat, n: nat, s: Pool, w: World, spec: SubtaskSpec, i: nat) returns (t: Pool)
    requires Inv(workers, n, s) && i < n && s.phases[i].Started?
    ensures Leads(workers, s, BodySteps(w, spec, i), t) && Inv(workers, n, t)
    ensures t.phases == s.phases[i := Concluded(OutcomeOf(w, spec, i))]
    ensures t.statuses == s.statuses[i := Trail(w, spec)[|Trail(w, spec)| - 1]]
  {
    hide Inv;
    var o := OutcomeOf(w, spec, i);
    assert Sized(s, n) by { Sizes(workers, n, s); }
    if Assigned(w, spec) {
      t := Next(workers, Next(workers, s, Begin(i)).value, Conclude(i, o.result, o.err)).value;
      assert BodySteps(w, spec, i)[1..] == [Conclude(i, o.result, o.err)];
      assert Leads(workers, Next(workers, s, Begin(i)).value, [Conclude(i, o.result, o.err)], t);
    } else {
      t := Next(workers, s, Conclude(i, o.result, o.err)).value;
      assert BodySteps(w, spec, i) == [Conclude(i, o.result, o.err)];
    }
    RunsKeepInv(workers, n, s, BodySteps(w, spec, i), t);
  }

  /** Every body that ends in the run ends with the outcome listed for it. */
  predicate Obeys(evs: seq<Event>, outs: seq<SubtaskOutcome>)
  {
    forall k :: 0 <= k < |evs| && evs[k].Conclude? ==>
      evs[k].i < |outs| && outs[evs[k].i] == SubtaskOutcome(evs[k].i, evs[k].result, evs[k].err)
  }

  predicate FollowsAt(s: Pool, outs: seq<SubtaskOutcome>, i: nat)
    requires Sized(s, |outs|) && i < |outs|
  {
    match s.phases[i]
    case Concluded(o) => o == outs[i]
    case Stored => s.results[i] == Some(outs[i])
    case Released => s.results[i] == Some(outs[i])
    case Exited => s.results[i] == Some(outs[i])
    case Skipped => s.cancelled && s.results[i] == Some(SubtaskOutcome(i, "", true))
    case _ => true
  }

  lemma StepFollows(workers: nat, s: Pool, outs: seq<SubtaskOutcome>, ev: Event)
    requires Sized(s, |outs|) && Next(workers, s, ev).Some? && Obeys([ev], outs)
    requires forall i :: 0 <= i < |outs| ==> FollowsAt(s, outs, i)
    ensures var t := Next(workers, s, ev).value;
            Sized(t, |outs|) && forall i :: 0 <= i < |outs| ==> FollowsAt(t, outs, i)
  {
    var t := Next(workers, s, ev).value;
    assert ev.Conclude? ==> [ev][0].i < |outs|;
    forall i | 0 <= i < |outs|
      ensures FollowsAt(t, outs, i)
    {
      assert FollowsAt(s, outs, i);
    }
  }

  lemma {:induction false} RunFollows(workers: nat, s: Pool, outs: seq<SubtaskOutcome>, evs: seq<Event>, t: Pool)
    requires Sized(s, |outs|) && Leads(workers, s, evs, t) && Obeys(evs, outs)
    requires forall i :: 0 <= i < |outs| ==> FollowsAt(s, outs, i)
    ensures Sized(t, |outs|) && forall i :: 0 <= i < |outs| ==> FollowsAt(t, outs, i)
    ensures t.cancelled <==> s.cancelled || Cancel in evs
    decreases |evs|
  {
    if evs != [] {
      assert evs[0] in evs && [evs[0]][0] == evs[0];
      StepFollows(workers, s, outs, evs[0]);
      forall k | 0 <= k < |evs[1..]| && evs[1..][k].Conclude?
        ensures evs[1..][k].i < |outs|
        ensures outs[evs[1..][k].i] == SubtaskOutcome(evs[1..][k].i, evs[1..][k].result, evs[1..][k].err)
      {
        assert evs[k + 1] == evs[1..][k];
      }
      RunFollows(workers, Next(workers, s, evs[0]).value, outs, evs[1..], t);
      assert evs == [evs[0]] + evs[1..];
    }
  }

  /** The results of a pool that has returned. */
  function Results(t: Pool): (r: seq<SubtaskOutcome>)
    requires forall i :: 0 <= i < |t.results| ==> t.results[i].Some?
    ensures |r| == |t.results|
  {
    seq(|t.results|, i requires 0 <= i < |t.results| => t.results[i].value)
  }

  /** However the goroutines interleave, `execute` returns with every subtask's
      own outcome in its own place; only subtasks passed over after a
      cancellation have the cancellation's error instead. */
  lemma PoolReturnsOutcomes(workers: nat, outs: seq<SubtaskOutcome>, evs: seq<Event>, t: Pool)
    requires Leads(workers, Init(|outs|), evs, t) && t.main.Finished? && Obeys(evs, outs)
    ensures Sized(t, |outs|)
    ensures forall i :: 0 <= i < |outs| ==>
              t.results[i] == Some(if t.phases[i].Skipped? then SubtaskOutcome(i, "", true) else outs[i])
    ensures Cancel !in evs ==> forall i :: 0 <= i < |outs| ==> !t.phases[i].Skipped?
  {
    var n := |outs|;
    InitHolds(workers, n);
    RunsKeepInv(workers, n, Init(n), evs, t);
    RunFollows(workers, Init(n), outs, evs, t);
    forall i | 0 <= i < n
      ensures t.results[i] == Some(if t.phases[i].Skipped? then SubtaskOutcome(i, "", true) else outs[i])
      ensures Cancel !in evs ==> !t.phases[i].Skipped?
    {
      assert LauncherAgrees(t.main, t.phases, i);
      assert FollowsAt(t, outs, i);
    }
  }

  /** Two complete runs without a cancellation end alike: same results, same
      statuses, whatever the interleaving and the number of workers. */
  lemma InterleavingIsInvisible(
    w1: nat, evs1: seq<Event>, t1: Pool, w2: nat, evs2: seq<Event>, t2: Pool, outs: seq<SubtaskOutcome>)
    requires Leads(w1, Init(|outs|), evs1, t1) && t1.main.Finished? && Obeys(evs1, outs) && Cancel !in evs1
    requires Leads(w2, Init(|outs|), evs2, t2) && t2.main.Finished? && Obeys(evs2, outs) && Cancel !in evs2
    ensures t1.results == t2.results && t1.statuses == t2.statuses
  {
    PoolReturnsOutcomes(w1, outs, evs1, t1);
    PoolReturnsOutcomes(w2, outs, evs2, t2);
    forall i | 0 <= i < |outs|
      ensures t1.results[i] == t2.results[i] && t1.statuses[i] == t2.statuses[i]
    {
      FinalStatuses(w1, |outs|, evs1, t1, i);
      FinalStatuses(w2, |outs|, evs2, t2, i);
    }
  }

  // ---- the whole distribution -------------------------------------------

  /** The size of an orchestrator's pool: four unless asked otherwise, and at
      least one. */
  function PoolSize(requested: Option<int>): (workers: nat)
    ensures workers >= 1
    ensures requested.Some? && requested.value >= 1 ==> workers == requested.value
    ensures requested.Some? && requested.value < 1 ==> workers == 1
    ensures requested.None? ==> workers == 4
  {
    var workers := if requested.Some? then requested.value else 4;
    if workers < 1 then 1 else workers
  }

  /** A run of the pool ends only by `execute` returning. */
  lemma StoppedMeansFinished(requested: Option<int>, n: nat, evs: seq<Event>, t: Pool)
    requires Leads(PoolSize(requested), Init(n), evs, t) && Sized(t, n)
    requires forall ev :: Next(PoolSize(requested), t, ev).Some? ==> ev.Cancel?
    ensures t.main.Finished?
  {
    InitHolds(PoolSize(requested), n);
    RunsKeepInv(PoolSize(requested), n, Init(n), evs, t);
    if !t.main.Finished? {
      var ev := NeverStuck(PoolSize(requested), n, t);
    }
  }

  function FailedSet(results: seq<SubtaskOutcome>): set<int>
  {
    set i | 0 <= i < |results| && results[i].err
  }

  lemma {:induction false} CountFailedExactly(results: seq<SubtaskOutcome>)
    ensures CountFailed(results) == |FailedSet(results)|
  {
    if results != [] {
      var n := |results| - 1;
      var init := results[..n];
      CountFailedExactly(init);
      forall i
        ensures i in FailedSet(results) <==> i in FailedSet(init) || (i == n && results[n].err)
      {
        assert 0 <= i < n ==> init[i] == results[i];
      }
      assert FailedSet(results) == if results[n].err then FailedSet(init) + {n} else FailedSet(init);
    }
  }

  lemma {:induction false} LinesExactly(results: seq<SubtaskOutcome>, i: nat, text: string)
    ensures SubtaskLine(i, text) in LinesOf(results) <==>
            i < |results| && results[i].result == text && text != ""
    ensures ContextLine !in LinesOf(results)
  {
    if results != [] {
      LinesExactly(results[..|results| - 1], i, text);
    }
  }

  /** Lines of subtasks below `n`, in ascending order. */
  predicate Ascending(lines: seq<Line>, n: nat)
  {
    && (forall k :: 0 <= k < |lines| ==> lines[k].SubtaskLine? && lines[k].i < n)
    && (forall k, l :: 0 <= k < l < |lines| ==> lines[k].i < lines[l].i)
  }

  lemma AscendOneMore(lines: seq<Line>, n: nat, text: string)
    requires Ascending(lines, n)
    ensures Ascending(lines + [SubtaskLine(n, text)], n + 1) && Ascending(lines, n + 1)
  {
  }

  lemma {:induction false} LinesAscend(results: seq<SubtaskOutcome>)
    ensures Ascending(LinesOf(results), |results|)
  {
    if results != [] {
      var n := |results| - 1;
      LinesAscend(results[..n]);
      AscendOneMore(LinesOf(results[..n]), n, results[n].result);
      hide Ascending;
      assert LinesOf(results[..n]) + [] == LinesOf(results[..n]);
    }
  }

  lemma SummaryLines(results: seq<SubtaskOutcome>, cancelled: bool, cancelledLater: bool)
    ensures var lines := SummaryOf(results, cancelled, cancelledLater).lines;
            forall k, l :: 0 <= k < l < |lines| ==>
              lines[k].SubtaskLine? && (lines[l].SubtaskLine? ==> lines[k].i < lines[l].i)
  {
    LinesAscend(results);
    hide LinesOf, CountFailed;
    var lines := SummaryOf(results, cancelled, cancelledLater).lines;
    assert lines == LinesOf(results) + if cancelledLater then [ContextLine] else [];
    assert forall k :: 0 <= k < |LinesOf(results)| ==> lines[k] == LinesOf(results)[k];
  }

  /** The summary counts every outcome once, succeeds exactly if none failed
      and the context was not done, and has a line for every result, in the order
      of the subtasks, with the context's line last. */
  lemma SummaryExactly(results: seq<SubtaskOutcome>, cancelled: bool, cancelledLater: bool)
    ensures var summary := SummaryOf(results, cancelled, cancelledLater);
            && summary.completed + summary.failed == |results|
            && summary.failed == |FailedSet(results)|
            && (summary.status == Success <==> !cancelled && FailedSet(results) == {})
            && (ContextLine in summary.lines <==> cancelledLater)
            && forall i: nat, text: string :: SubtaskLine(i, text) in summary.lines <==>
                 i < |results| && results[i].result == text && text != ""
    ensures var lines := SummaryOf(results, cancelled, cancelledLater).lines;
            forall k, l :: 0 <= k < l < |lines| ==>
              lines[k].SubtaskLine? && (lines[l].SubtaskLine? ==> lines[k].i < lines[l].i)
  {
    SummaryLines(results, cancelled, cancelledLater);
    CountFailedExactly(results);
    hide CountFailed, LinesOf;
    forall i: nat, text: string
      ensures SubtaskLine(i, text) in LinesOf(results) <==> i < |results| && results[i].result == text && text != ""
      ensures ContextLine !in LinesOf(results)
    {
      LinesExactly(results, i, text);
    }
    assert ContextLine !in LinesOf(results) by { LinesExactly(results, 0, ""); }
  }

  /** The outcome of a distribution, over every run of the pool: sorting finds
      the results already in order, the counts add up to the number of subtasks,
      the failures are exactly the subtasks whose status is not success, and the
      task succeeds exactly if there are none and the context was not done. */
  lemma DistributionOutcome(workers: nat, n: nat, evs: seq<Event>, t: Pool, cancelled: bool, cancelledLater: bool)
    requires Leads(workers, Init(n), evs, t) && t.main.Finished?
    ensures Sized(t, n) && forall i :: 0 <= i < n ==> t.results[i].Some?
    ensures SortStable(LowerIndex, Results(t)) == Results(t)
    ensures var summary := SummaryOf(Results(t), cancelled, cancelledLater);
            && summary.completed + summary.failed == n
            && summary.failed == |set i | 0 <= i < n && t.statuses[i] != Success|
            && (summary.status == Success <==> !cancelled && forall i :: 0 <= i < n ==> t.statuses[i] == Success)
  {
    hide Leads, SortStable, SummaryOf;
    PoolIsSafe(workers, n, evs, t);
    var results := Results(t);
    assert Ordered(LowerIndex, results);
    SortOfOrdered(LowerIndex, results);
    SummaryExactly(results, cancelled, cancelledLater);
    forall i | 0 <= i < n
      ensures t.statuses[i] == Success <==> i !in FailedSet(results)
    {
      FinalStatuses(workers, n, evs, t, i);
    }
    assert FailedSet(results) == (set i | 0 <= i < n && t.statuses[i] != Success);
  }

  lemma LoneFailure(
    failure: SubtaskOutcome, workers: nat, outs: seq<SubtaskOutcome>, evs: seq<Event>, t: Pool, c: bool, cl: bool)
    requires failure == SubtaskOutcome(0, "", true) && |outs| == 1 && outs[0] == failure
    requires Leads(workers, Init(1), evs, t) && t.main.Finished? && Obeys(evs, outs)
    ensures Sized(t, 1) && t.results[0].Some?
    ensures SummaryOf(Results(t), c, cl) == Summary(Failed, 0, 1, if cl then [ContextLine] else [])
  {
    hide Leads, Obeys;
    PoolReturnsOutcomes(workers, outs, evs, t);
    var results := Results(t);
    assert results == [failure] && results[..|results| - 1] == [];
    assert CountFailed(results) == 1 && LinesOf(results) == [];
  }

  /** The outcomes the outside worlds of the subtasks call for. */
  function OutcomesOf(worlds: seq<World>, specs: seq<SubtaskSpec>): (outs: seq<SubtaskOutcome>)
    requires |worlds| == |specs|
    ensures |outs| == |specs|
  {
    seq(|specs|, i requires 0 <= i < |specs| => OutcomeOf(worlds[i], specs[i], i))
  }

  lemma ResultsOfWorlds(worlds: seq<World>, specs: seq<SubtaskSpec>, workers: nat, evs: seq<Event>, t: Pool)
    requires |worlds| == |specs|
    requires Leads(workers, Init(|specs|), evs, t) && t.main.Finished? && Obeys(evs, OutcomesOf(worlds, specs))
    ensures Sized(t, |specs|) && forall i :: 0 <= i < |specs| ==> t.results[i].Some?
    ensures forall i :: 0 <= i < |specs| ==>
              Results(t)[i] == if t.phases[i].Skipped? then SubtaskOutcome(i, "", true)
                               else OutcomeOf(worlds[i], specs[i], i)
    ensures Cancel !in evs ==> (forall i :: 0 <= i < |specs| ==> !t.phases[i].Skipped?)
    ensures Cancel !in evs ==> Results(t) == OutcomesOf(worlds, specs)
  {
    hide Leads, Obeys, OutcomeOf;
    PoolReturnsOutcomes(workers, OutcomesOf(worlds, specs), evs, t);
  }

  /** A whole distribution, from the task's text to its summary, however the
      goroutines interleave and whether or not the task is cancelled: the results
      are the subtasks' own outcomes in the decomposition's order, failures for
      those passed over; the task succeeds exactly if the context is not done at
      the close, none was passed over and every subtask completes; and it has a
      line for exactly the subtasks that were run and answered something, with
      the joined answers. */
  lemma DistributedExactly(text: string, agents: seq<Agent>, worlds: seq<World>, requested: Option<int>,
                           evs: seq<Event>, t: Pool, cancelled: bool, cancelledLater: bool)
    requires |worlds| == |Decomposed(text, agents)|
    requires Leads(PoolSize(requested), Init(|worlds|), evs, t) && t.main.Finished?
    requires Obeys(evs, OutcomesOf(worlds, Decomposed(text, agents)))
    ensures Sized(t, |worlds|) && forall i :: 0 <= i < |worlds| ==> t.results[i].Some?
    ensures SortStable(LowerIndex, Results(t)) == Results(t)
    ensures Cancel !in evs ==> Results(t) == OutcomesOf(worlds, Decomposed(text, agents))
    ensures var specs, summary := Decomposed(text, agents), SummaryOf(Results(t), cancelled, cancelledLater);
            && (summary.status == Success <==>
                  && !cancelled
                  && forall i :: 0 <= i < |specs| ==> !t.phases[i].Skipped? && Completes(worlds[i], specs[i]))
            && (forall i: nat, line: string :: SubtaskLine(i, line) in summary.lines <==>
                  && i < |specs| && !t.phases[i].Skipped? && Assigned(worlds[i], specs[i])
                  && line == Joined(NonEmpty(AnswersFrom(worlds[i], specs[i], 0)), "\n") && line != "")
  {
    var specs := Decomposed(text, agents);
    hide Leads, Obeys, Decomposed, Completes, Assigned, AnswersFrom, NonEmpty, Joined, SortStable, SummaryOf;
    ResultsOfWorlds(worlds, specs, PoolSize(requested), evs, t);
    DistributionOutcome(PoolSize(requested), |worlds|, evs, t, cancelled, cancelledLater);
    var results := Results(t);
    SummaryExactly(results, cancelled, cancelledLater);
    assert FailedSet(results) == {} <==> forall i :: 0 <= i < |specs| ==> !results[i].err by {
      if FailedSet(results) == {} {
        assert forall i :: 0 <= i < |specs| && results[i].err ==> i in FailedSet(results);
      }
    }
  }

  /** If no agent qualifies, the task fails whatever the pool does. */
  lemma NoAgentsFails(
    text: string, agents: seq<Agent>, w: World, workers: nat, evs: seq<Event>, t: Pool, c: bool, cl: bool)
    requires forall i :: 0 <= i < |agents| ==> !Qualifies(text, agents[i])
    requires Leads(workers, Init(|Decomposed(text, agents)|), evs, t) && t.main.Finished?
    requires Obeys(evs, [OutcomeOf(w, Decomposed(text, agents)[0], 0)])
    ensures Sized(t, 1) && t.results[0].Some?
    ensures SummaryOf(Results(t), c, cl) == Summary(Failed, 0, 1, if cl then [ContextLine] else [])
  {
    hide Leads, Obeys, Decomposed;
    DecomposedExactly(text, agents);
    var outs := [OutcomeOf(w, Decomposed(text, agents)[0], 0)];
    LoneFailure(outs[0], workers, outs, evs, t, c, cl);
  }
}
