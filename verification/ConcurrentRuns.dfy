/** What flow runs that share a side-effect store do to one another, whatever the
    order in which they take turns. */
module ConcurrentRuns {
  import opened Values
  import opened Graph
  import opened Rollback
  import opened Nodes
  import opened Traversal
  import opened Interleaving
  import opened Commuting
  import opened Engine
  import opened EngineTurns

  // ---- what company changes for a run: nothing ---------------------------

  lemma {:induction false} EffectsOfPrefix(j: Job, t: seq<Visit>, n: nat)
    requires n <= |t|
    ensures Effects(j, t[..n]) <= Effects(j, t)
    decreases |t| - n
  {
    hide ReplyOf;
    if n < |t| {
      EffectsOfPrefix(j, t, n + 1);
      assert t[..n + 1][..n] == t[..n];
      assert Effects(j, t[..n]) <= Effects(j, t[..n + 1]);
    } else {
      assert t[..n] == t;
    }
  }

  lemma DosPrefix(r: nat, a: seq<Effect>, b: seq<Effect>, rest: seq<Op>)
    requires a <= b
    ensures Dos(r, a) <= Dos(r, b) + rest
  {
    DosConcat(r, a, b[|a|..]);
    assert a + b[|a|..] == b;
    assert Dos(r, b) + rest == Dos(r, a) + (Dos(r, b[|a|..]) + rest);
  }

  lemma UndosPrefix(r: nat, before: seq<Op>, k: nat, n: nat)
    requires k <= n
    ensures before + Undos(r, k) <= before + Undos(r, n)
  {
    assert Undos(r, n) == Undos(r, k) + Undos(r, n - k);
    assert before + Undos(r, n) == (before + Undos(r, k)) + Undos(r, n - k);
  }

  /** A run that goes on has come part of the way of any run that ended. */
  lemma GoingIsPrefix(j: Job, u: seq<Visit>, own: seq<Op>, r: nat, res: ExecutionResult, g: Graph, t: seq<Visit>)
    requires Represents(j.def, j.g) && Represents(j.def, g) && EndedAs(res, j.env, j.perms, g, t)
    requires Searched(j, u) && own == Dos(r, Effects(j, u))
    ensures u <= t && own <= StepsOf(r, j, t, res.status)
  {
    SameDocumentSameFlow(j.def, g, j.g);
    hide Represents, SameFlow, Replays, BreadthFirst, NextDiscovery, ReplyOf, EffectsOf, LogsOf, OutputsOf, Dos, Undos;
    if u != [] {
      SameFlowBack(g, j.g);
      if |u| <= |t| {
        SearchesAgree(j.env, j.perms, j.g, u, g, t, |u|);
        assert u[..|u|] == u;
      } else {
        NoFurther(j.env, j.perms, g, t, j.g, u);
      }
    }
    assert t[..|u|] == u;
    EffectsOfPrefix(j, t, |u|);
    DosPrefix(r, Effects(j, u), Effects(j, t),
              if res.status == RolledBack then Undos(r, |Effects(j, t)|) else []);
  }

  lemma EndedIsSame(j: Job, u: seq<Visit>, res': ExecutionResult, res: ExecutionResult, g: Graph, t: seq<Visit>)
    requires Represents(j.def, j.g) && Represents(j.def, g)
    requires EndedAs(res, j.env, j.perms, g, t) && EndedAs(res', j.env, j.perms, j.g, u)
    ensures u == t && res' == res
  {
    hide Represents, EndedAs;
    RunIsDetermined(j.def, j.env, j.perms, res', j.g, u, res, g, t);
  }

  lemma FitsIsPrefix(run: Run, own: seq<Op>, r: nat, res: ExecutionResult, g: Graph, t: seq<Visit>)
    requires var j := run.job;
             Represents(j.def, j.g) && Represents(j.def, g) && EndedAs(res, j.env, j.perms, g, t)
    requires Fits(run, own, r)
    ensures run.t <= t && own <= StepsOf(r, run.job, t, res.status)
    ensures run.phase.Over? ==>
              run.phase.res == res && run.t == t && own == StepsOf(r, run.job, t, res.status)
  {
    hide Represents, EndedAs, Searched, Effects, FailedNext, Dos, Undos;
    var j := run.job;
    match run.phase {
      case Working =>
        GoingIsPrefix(j, run.t, own, r, res, g, t);
      case Undoing(e, left) =>
        RolledBackEnds(j, run.t, run.logs, e);
        var failed := ExecutionResult(RolledBack, map[], run.logs + [RunFailed], Some(NodeFailed(e)));
        EndedIsSame(j, run.t, failed, res, g, t);
        UndosPrefix(r, Dos(r, Effects(j, t)), |Effects(j, t)| - left, |Effects(j, t)|);
      case Over(res') =>
        EndedIsSame(j, run.t, res', res, g, t);
    }
  }

  /** Company changes nothing for a run: however the runs take turns on the store
      they share, at any moment the run's visits and its steps on the store are
      the first of those of any execution of the same flow, permissions and
      answers on an engine of its own, and once it has returned they are all of
      them, with the same result and log. */
  lemma CompanyIsInvisible(data: Data, jobs: seq<Job>, turns: seq<nat>, r: nat,
                           res: ExecutionResult, g: Graph, t: seq<Visit>)
    requires (forall j :: j in jobs ==> Accepted(j)) && r < |jobs|
    requires Represents(jobs[r].def, g) && EndedAs(res, jobs[r].env, jobs[r].perms, g, t)
    ensures var s := After(data, jobs, turns);
            && s.runs[r].t <= t && Own(s.ops, r) <= StepsOf(r, jobs[r], t, res.status)
            && (s.runs[r].phase.Over? ==>
                  && s.runs[r].phase.res == res && s.runs[r].t == t
                  && Own(s.ops, r) == StepsOf(r, jobs[r], t, res.status))
  {
    TurnsKeepSound(data, jobs, turns);
    assert jobs[r] in jobs;
    hide Represents, EndedAs, After, Own, Fits;
    FitsIsPrefix(After(data, jobs, turns).runs[r], Own(After(data, jobs, turns).ops, r), r, res, g, t);
  }

  // ---- leaving runs out --------------------------------------------------

  /** The same turns with run `r`'s left out. */
  function TurnsWithout(turns: seq<nat>, r: nat): seq<nat>
  {
    if turns == [] then []
    else
      var n := |turns| - 1;
      TurnsWithout(turns[..n], r) + (if turns[n] == r then [] else [turns[n]])
  }

  lemma AfterSnoc(data: Data, jobs: seq<Job>, turns: seq<nat>, r: nat)
    ensures After(data, jobs, turns + [r]) == Turn(After(data, jobs, turns), r)
  {
    assert (turns + [r])[..|turns|] == turns;
    hide Turn;
  }

  /** `v` is `s` with run `r` left out: without its steps, the other runs alike. */
  ghost predicate LacksOnly(s: State, v: State, r: nat)
  {
    && v.ops == Without(s.ops, r) && |v.runs| == |s.runs|
    && forall q :: 0 <= q < |s.runs| && q != r ==> v.runs[q] == s.runs[q]
  }

  lemma OwnTurnLacks(s: State, v: State, r: nat)
    requires LacksOnly(s, v, r)
    ensures LacksOnly(Turn(s, r), v, r)
  {
    if r < |s.runs| {
      hide Advance, Play, Log;
      AdvanceFrame(r, s.runs[r], |Log(s.w, r)|);
      WithoutAppended(s.ops, Advance(r, s.runs[r], |Log(s.w, r)|).steps, r, r);
    }
  }

  lemma OtherTurnLacks(data: Data, s: State, v: State, r: nat, x: nat)
    requires LacksOnly(s, v, r) && x != r && s.w == Exec(data, s.ops) && v.w == Exec(data, v.ops)
    ensures LacksOnly(Turn(s, x), Turn(v, x), r)
  {
    if x < |s.runs| {
      hide Advance, Play, Log, Exec;
      SameLogLength(data, s.ops, r, x);
      AdvanceFrame(x, s.runs[x], |Log(s.w, x)|);
      WithoutAppended(s.ops, Advance(x, s.runs[x], |Log(s.w, x)|).steps, x, r);
    }
  }

  lemma TurnKeepsWorld(data: Data, s: State, r: nat)
    requires s.w == Exec(data, s.ops)
    ensures Turn(s, r).w == Exec(data, Turn(s, r).ops)
  {
    if r < |s.runs| {
      hide Advance, Play, Log, Exec;
      PlayExec(data, s.ops, Advance(r, s.runs[r], |Log(s.w, r)|).steps);
    }
  }

  lemma {:induction false} WorldIsExec(data: Data, jobs: seq<Job>, turns: seq<nat>)
    ensures After(data, jobs, turns).w == Exec(data, After(data, jobs, turns).ops)
  {
    hide Turn;
    if turns != [] {
      var n := |turns| - 1;
      WorldIsExec(data, jobs, turns[..n]);
      TurnKeepsWorld(data, After(data, jobs, turns[..n]), turns[n]);
    }
  }

  /** Leaving out a run's turns leaves out its steps on the store and changes no
      other run: nothing a run does depends on the others. */
  lemma {:induction false} LeavingOut(data: Data, jobs: seq<Job>, turns: seq<nat>, r: nat)
    ensures LacksOnly(After(data, jobs, turns), After(data, jobs, TurnsWithout(turns, r)), r)
  {
    if turns != [] {
      hide Turn, LacksOnly, Exec;
      var n := |turns| - 1;
      LeavingOut(data, jobs, turns[..n], r);
      var s, v := After(data, jobs, turns[..n]), After(data, jobs, TurnsWithout(turns[..n], r));
      if turns[n] == r {
        assert TurnsWithout(turns[..n], r) + [] == TurnsWithout(turns[..n], r);
        OwnTurnLacks(s, v, r);
      } else {
        WorldIsExec(data, jobs, turns[..n]);
        WorldIsExec(data, jobs, TurnsWithout(turns[..n], r));
        OtherTurnLacks(data, s, v, r, turns[n]);
        AfterSnoc(data, jobs, TurnsWithout(turns[..n], r), turns[n]);
      }
    }
  }

  function TurnsWithoutAll(turns: seq<nat>, gone: seq<nat>): seq<nat>
    decreases |gone|
  {
    if gone == [] then turns else TurnsWithoutAll(TurnsWithout(turns, gone[0]), gone[1..])
  }

  lemma {:induction false} LeavingOutAll(data: Data, jobs: seq<Job>, turns: seq<nat>, gone: seq<nat>)
    ensures var s, v := After(data, jobs, turns), After(data, jobs, TurnsWithoutAll(turns, gone));
            && v.ops == WithoutAll(s.ops, gone)
            && forall q :: 0 <= q < |jobs| && q !in gone ==> v.runs[q] == s.runs[q]
    decreases |gone|
  {
    hide After, TurnsWithout, Without;
    if gone != [] {
      LeavingOut(data, jobs, turns, gone[0]);
      LeavingOutAll(data, jobs, TurnsWithout(turns, gone[0]), gone[1..]);
    }
  }

  lemma RolledBackIsDone(data: Data, ops: seq<Op>, job: Job, t: seq<Visit>, r: nat, res: ExecutionResult)
    requires Returned(job, t, Own(ops, r), r, res) && res.status == RolledBack
    ensures Log(Exec(data, ops), r) == []
  {
    hide Exec, Log, Own, Effects, EndedAs;
    OwnLogLength(data, ops, r);
    LoneRunIsRollback(data, r, Effects(job, t));
  }

  /** Failure atomicity in company: at any moment of any order of turns, runs that
      have rolled back, and whose keys no other run wrote while they held them,
      leave no trace. Had they never taken a turn, every key would read the same
      and every other run would stand where it stands, with the same left to
      undo. */
  lemma RolledBackRunsLeaveNoTrace(data: Data, jobs: seq<Job>, turns: seq<nat>, gone: seq<nat>)
    requires forall j :: j in jobs ==> Accepted(j)
    requires forall i, j :: 0 <= i < j < |gone| ==> gone[i] != gone[j]
    requires var s := After(data, jobs, turns);
             forall r :: r in gone ==>
               && r < |jobs| && s.runs[r].phase.Over? && s.runs[r].phase.res.status == RolledBack
               && Undisturbed(data, s.ops, r)
    ensures var s, v := After(data, jobs, turns), After(data, jobs, TurnsWithoutAll(turns, gone));
            && (forall k :: Read(s.w.data, k) == Read(v.w.data, k))
            && (forall q :: 0 <= q < |jobs| && q !in gone ==> v.runs[q] == s.runs[q] && Log(v.w, q) == Log(s.w, q))
  {
    TurnsKeepSound(data, jobs, turns);
    hide After, Exec, Log, Undisturbed, WithoutAll, TurnsWithoutAll, Accepted;
    var s := After(data, jobs, turns);
    forall r | r in gone
      ensures Log(Exec(data, s.ops), r) == []
    {
      assert Fits(s.runs[r], Own(s.ops, r), r);
      RolledBackIsDone(data, s.ops, s.runs[r].job, s.runs[r].t, r, s.runs[r].phase.res);
    }
    NoTraceOfAny(data, s.ops, gone);
    LeavingOutAll(data, jobs, turns, gone);
    WorldIsExec(data, jobs, TurnsWithoutAll(turns, gone));
  }

  // ---- runs on different keys --------------------------------------------

  lemma NotInvalid(j: Job, t: seq<Visit>, res: ExecutionResult)
    requires EndedAs(res, j.env, j.perms, j.g, t)
    ensures res.status != Invalid
  {
    hide Ends, LogsOf, OutputsOf, NextDiscovery, NextReply;
  }

  /** A run's steps, taken with nobody else around, leave in a store what the
      engine leaves there. */
  lemma AloneIsEngine(data: Data, r: nat, j: Job, t: seq<Visit>, res: ExecutionResult,
                      undo0: seq<EffectRecord>, final: Data, undo: seq<EffectRecord>)
    requires EndedAs(res, j.env, j.perms, j.g, t)
    requires StoreAfter(res.status, j.env, j.perms, j.g, t, data, undo0, final, undo)
    ensures Exec(data, StepsOf(r, j, t, res.status)).data == final
  {
    var es := Effects(j, t);
    NotInvalid(j, t, res);
    hide EndedAs, EffectsOf, Exec, Dos, Undos;
    if res.status == RolledBack {
      LoneRunIsRollback(data, r, es);
      RollbackRestores(data, es);
    } else {
      DosApply(data, r, es);
      assert Dos(r, es) + [] == Dos(r, es);
    }
  }

  lemma {:induction false} KeysOfSteps(r: nat, j: Job, t: seq<Visit>, status: RunStatus)
    ensures Keys(StepsOf(r, j, t, status), r) == KeySet(Effects(j, t))
  {
    hide EffectsOf;
    var es, steps := Effects(j, t), StepsOf(r, j, t, status);
    forall e | e in es
      ensures Do(r, e) in steps
    {
      var i :| 0 <= i < |es| && es[i] == e;
      assert steps[i] == Do(r, e);
    }
    forall op | op in steps && op.Do?
      ensures op.e in es
    {
      var i :| 0 <= i < |steps| && steps[i] == op;
      assert i < |es|;
    }
  }

  lemma ReturnedKeys(ops: seq<Op>, r: nat, j: Job, t: seq<Visit>, status: RunStatus)
    requires Own(ops, r) == StepsOf(r, j, t, status)
    ensures Keys(ops, r) == KeySet(Effects(j, t))
  {
    hide Own, StepsOf, Effects;
    OwnMembers(ops, r);
    KeysOfSteps(r, j, t, status);
    assert forall op :: op in ops && op.run == r <==> op in StepsOf(r, j, t, status) && op.run == r;
  }

  lemma ApartStepsEndAsAlone(data: Data, ops: seq<Op>, r: nat, j: Job, t: seq<Visit>, res: ExecutionResult,
                             undo0: seq<EffectRecord>, final: Data, undo: seq<EffectRecord>)
    requires EndedAs(res, j.env, j.perms, j.g, t)
    requires StoreAfter(res.status, j.env, j.perms, j.g, t, data, undo0, final, undo)
    requires Own(ops, r) == StepsOf(r, j, t, res.status) && KeysApart(ops, r)
    ensures Keys(ops, r) == KeySet(Effects(j, t))
    ensures forall k :: k in Keys(ops, r) ==> Entry(Exec(data, ops).data, k) == Entry(final, k)
  {
    hide Exec, StoreAfter, StepsOf, Effects, EndedAs, Own, Entry;
    OwnKeysFollow(data, ops, r, Keys(ops, r));
    AloneIsEngine(data, r, j, t, res, undo0, final, undo);
    ReturnedKeys(ops, r, j, t, res.status);
  }

  /** A run that has returned, on keys no other run wrote, leaves each of them
      holding exactly what an execution of the same flow, permissions and answers
      on an engine of its own leaves there. */
  lemma ApartRunEndsAsAlone(data: Data, jobs: seq<Job>, turns: seq<nat>, r: nat,
                            res: ExecutionResult, g: Graph, t: seq<Visit>,
                            undo0: seq<EffectRecord>, final: Data, undo: seq<EffectRecord>)
    requires (forall j :: j in jobs ==> Accepted(j)) && r < |jobs|
    requires Represents(jobs[r].def, g) && EndedAs(res, jobs[r].env, jobs[r].perms, g, t)
    requires StoreAfter(res.status, jobs[r].env, jobs[r].perms, g, t, data, undo0, final, undo)
    requires var s := After(data, jobs, turns); s.runs[r].phase.Over? && KeysApart(s.ops, r)
    ensures var s := After(data, jobs, turns);
            && Keys(s.ops, r) == KeySet(EffectsOf(jobs[r].env, jobs[r].perms, g, t))
            && forall k :: k in Keys(s.ops, r) ==> Entry(s.w.data, k) == Entry(final, k)
  {
    TurnsKeepSound(data, jobs, turns);
    assert jobs[r] in jobs;
    var s, j := After(data, jobs, turns), jobs[r];
    assert Fits(s.runs[r], Own(s.ops, r), r);
    hide After, Exec, StoreAfter, StepsOf, EffectsOf, Represents, EndedAs, Own;
    RunIsDetermined(j.def, j.env, j.perms, s.runs[r].phase.res, j.g, s.runs[r].t, res, g, t);
    SameDocumentSameFlow(j.def, j.g, g);
    SameRecords(j.env, j.perms, j.g, g, t);
    hide *;
    ApartStepsEndAsAlone(data, s.ops, r, j, t, res, undo0, final, undo);
  }

  lemma ReturnedAlike(a: Run, owna: seq<Op>, b: Run, ownb: seq<Op>, r: nat)
    requires a.job == b.job && Represents(a.job.def, a.job.g)
    requires a.phase.Over? && b.phase.Over? && Fits(a, owna, r) && Fits(b, ownb, r)
    ensures a.t == b.t && a.phase.res == b.phase.res && owna == ownb
  {
    hide Represents, EndedAs;
    EndedIsSame(a.job, a.t, a.phase.res, b.phase.res, b.job.g, b.t);
  }

  lemma ReturnedTwice(data: Data, jobs: seq<Job>, s: State, s': State, r: nat)
    requires (forall j :: j in jobs ==> Accepted(j)) && r < |jobs|
    requires Sound(data, jobs, s) && Sound(data, jobs, s') && s.runs[r].phase.Over? && s'.runs[r].phase.Over?
    ensures s.runs[r].t == s'.runs[r].t && s.runs[r].phase.res == s'.runs[r].phase.res
    ensures Own(s.ops, r) == Own(s'.ops, r)
  {
    hide Exec, Fits, Own;
    assert jobs[r] in jobs;
    ReturnedAlike(s.runs[r], Own(s.ops, r), s'.runs[r], Own(s'.ops, r), r);
  }

  lemma StrangersStayApart(data: Data, jobs: seq<Job>, s: State, s': State, r: nat)
    requires Sound(data, jobs, s) && Sound(data, jobs, s') && r >= |jobs|
    ensures Own(s.ops, r) == Own(s'.ops, r) && KeysApart(s.ops, r)
  {
    hide Exec, Fits, Own;
    StrangersOwnNothing(s.ops, |jobs|, r);
    StrangersOwnNothing(s'.ops, |jobs|, r);
  }

  lemma StatesAgree(data: Data, jobs: seq<Job>, s: State, s': State)
    requires (forall j :: j in jobs ==> Accepted(j)) && Sound(data, jobs, s) && Sound(data, jobs, s')
    requires forall r :: 0 <= r < |jobs| ==> s.runs[r].phase.Over? && s'.runs[r].phase.Over? && KeysApart(s.ops, r)
    ensures s.w.data == s'.w.data
  {
    forall r: nat
      ensures Own(s.ops, r) == Own(s'.ops, r) && KeysApart(s.ops, r)
    {
      hide Sound, KeysApart, Own;
      if r < |jobs| {
        ReturnedTwice(data, jobs, s, s', r);
      } else {
        StrangersStayApart(data, jobs, s, s', r);
      }
    }
    hide Exec, Fits, KeysApart, Own, Accepted;
    InterleavingsAgree(data, s.ops, s'.ops);
  }

  /** Runs on different keys commute: in whatever orders they take turns, once all
      have returned they have the same visits and results, and the store they
      leave is the same, the one they leave one after another among them. */
  lemma ReturnedRunsAgree(data: Data, jobs: seq<Job>, turns: seq<nat>, turns': seq<nat>)
    requires forall j :: j in jobs ==> Accepted(j)
    requires var s, s' := After(data, jobs, turns), After(data, jobs, turns');
             forall r :: 0 <= r < |jobs| ==>
               s.runs[r].phase.Over? && s'.runs[r].phase.Over? && KeysApart(s.ops, r)
    ensures var s, s' := After(data, jobs, turns), After(data, jobs, turns');
            && s.w.data == s'.w.data
            && forall r :: 0 <= r < |jobs| ==>
                 s.runs[r].t == s'.runs[r].t && s.runs[r].phase.res == s'.runs[r].phase.res
  {
    TurnsKeepSound(data, jobs, turns);
    TurnsKeepSound(data, jobs, turns');
    hide *;
    var s, s' := After(data, jobs, turns), After(data, jobs, turns');
    StatesAgree(data, jobs, s, s');
    forall r | 0 <= r < |jobs|
      ensures s.runs[r].t == s'.runs[r].t && s.runs[r].phase.res == s'.runs[r].phase.res
    {
      ReturnedTwice(data, jobs, s, s', r);
    }
  }
}
