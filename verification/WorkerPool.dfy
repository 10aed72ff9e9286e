/** The bounded worker pool as a state machine over atomic steps: the launching
    loop, a semaphore, a wait group, one goroutine per launched subtask, and a
    cancellation that may come at any moment. */
module WorkerPool {
  import opened Values

  datatype SubtaskOutcome = SubtaskOutcome(index: nat, result: string, err: bool)

  datatype Status = Pending | Running | Success | Failed

  /** Where a subtask is: not launched, the stages of its goroutine, or passed
      over because the context was already cancelled. */
  datatype Phase =
    | Idle
    | Started
    | Working
    | Concluded(out: SubtaskOutcome)
    | Stored
    | Released
    | Exited
    | Skipped

  /** The launching goroutine: about to look at subtask `i`, waiting for a slot
      for it, waiting for the group, or returned. */
  datatype Launcher = AtSpec(i: nat) | Acquiring(i: nat) | Joining | Finished

  datatype Pool = Pool(
    main: Launcher,
    phases: seq<Phase>,
    held: nat,
    group: nat,
    cancelled: bool,
    results: seq<Option<SubtaskOutcome>>,
    writes: seq<nat>,
    statuses: seq<Status>)

  datatype Event =
    | Cancel
    | Check
    | Acquire
    | Begin(i: nat)
    | Conclude(i: nat, result: string, err: bool)
    | Store(i: nat)
    | Release(i: nat)
    | Exit(i: nat)
    | Join

  function Init(n: nat): Pool
  {
    Pool(AtSpec(0), seq(n, _ => Idle), 0, 0, false, seq(n, _ => None), seq(n, _ => 0), seq(n, _ => Pending))
  }

  predicate Sized(s: Pool, n: nat)
  {
    |s.phases| == |s.results| == |s.writes| == |s.statuses| == n
  }

  function Write(s: Pool, i: nat, o: SubtaskOutcome, phase: Phase): Pool
    requires Sized(s, |s.phases|) && i < |s.phases|
  {
    s.(results := s.results[i := Some(o)], writes := s.writes[i := s.writes[i] + 1], phases := s.phases[i := phase])
  }

  /** One atomic step with `workers` semaphore slots; `None` if the event cannot
      happen in this state. */
  function Next(workers: nat, s: Pool, ev: Event): Option<Pool>
    requires Sized(s, |s.phases|)
  {
    var n := |s.phases|;
    match ev
    case Cancel =>
      if s.cancelled then None else Some(s.(cancelled := true))
    case Check =>
      if !s.main.AtSpec? then None
      else if s.main.i >= n then Some(s.(main := Joining))
      else if s.cancelled then
        Some(Write(s, s.main.i, SubtaskOutcome(s.main.i, "", true), Skipped).(main := AtSpec(s.main.i + 1)))
      else Some(s.(group := s.group + 1, main := Acquiring(s.main.i)))
    case Acquire =>
      if !s.main.Acquiring? || s.main.i >= n || s.held >= workers then None
      else Some(s.(held := s.held + 1, phases := s.phases[s.main.i := Started], main := AtSpec(s.main.i + 1)))
    case Begin(i) =>
      if i >= n || !s.phases[i].Started? then None
      else Some(s.(phases := s.phases[i := Working], statuses := s.statuses[i := Running]))
    case Conclude(i, result, err) =>
      if i >= n || !(s.phases[i].Working? || (s.phases[i].Started? && err)) then None
      else Some(s.(phases := s.phases[i := Concluded(SubtaskOutcome(i, result, err))],
                   statuses := s.statuses[i := if err then Failed else Success]))
    case Store(i) =>
      if i >= n || !s.phases[i].Concluded? then None
      else Some(Write(s, i, s.phases[i].out, Stored))
    case Release(i) =>
      if i >= n || !s.phases[i].Stored? || s.held == 0 then None
      else Some(s.(held := s.held - 1, phases := s.phases[i := Released]))
    case Exit(i) =>
      if i >= n || !s.phases[i].Released? || s.group == 0 then None
      else Some(s.(group := s.group - 1, phases := s.phases[i := Exited]))
    case Join =>
      if s.main.Joining? && s.group == 0 then Some(s.(main := Finished)) else None
  }

  // ---- counting over phases ---------------------------------------------

  function Sum(f: Phase -> nat, ps: seq<Phase>): nat
  {
    if ps == [] then 0 else Sum(f, ps[..|ps| - 1]) + f(ps[|ps| - 1])
  }

  /** 1 for a subtask that occupies a semaphore slot. */
  function Holds(p: Phase): nat
  {
    if p.Started? || p.Working? || p.Concluded? || p.Stored? then 1 else 0
  }

  /** 1 for a subtask whose goroutine has not left the wait group. */
  function Alive(p: Phase): nat
  {
    if p.Released? then 1 else Holds(p)
  }

  /** The steps a subtask still has to take. */
  function Rank(p: Phase): nat
  {
    match p
    case Idle => 6
    case Started => 5
    case Working => 4
    case Concluded(_) => 3
    case Stored => 2
    case Released => 1
    case _ => 0
  }

  lemma {:induction false} SumUpdate(f: Phase -> nat, ps: seq<Phase>, i: nat, p: Phase)
    requires i < |ps|
    ensures Sum(f, ps[i := p]) + f(ps[i]) == Sum(f, ps) + f(p)
    decreases |ps|
  {
    var init := ps[..|ps| - 1];
    if i < |init| {
      SumUpdate(f, init, i, p);
      assert ps[i := p][..|ps| - 1] == init[i := p];
    } else {
      assert ps[i := p][..|ps| - 1] == init;
    }
  }

  lemma {:induction false} SumAtLeast(f: Phase -> nat, ps: seq<Phase>, i: nat)
    requires i < |ps|
    ensures Sum(f, ps) >= f(ps[i])
    decreases |ps|
  {
    if i < |ps| - 1 {
      SumAtLeast(f, ps[..|ps| - 1], i);
    }
  }

  lemma {:induction false} SumPositive(f: Phase -> nat, ps: seq<Phase>) returns (i: nat)
    requires Sum(f, ps) > 0
    ensures i < |ps| && f(ps[i]) > 0
  {
    if f(ps[|ps| - 1]) > 0 {
      i := |ps| - 1;
    } else {
      i := SumPositive(f, ps[..|ps| - 1]);
    }
  }

  lemma {:induction false} SumOfIdle(n: nat)
    ensures var ps := seq(n, _ => Idle); Sum(Holds, ps) == 0 && Sum(Alive, ps) == 0 && Sum(Rank, ps) == 6 * n
  {
    if n > 0 {
      SumOfIdle(n - 1);
      assert seq(n, _ => Idle)[..n - 1] == seq(n - 1, _ => Idle);
    }
  }

  // ---- the invariant ----------------------------------------------------

  predicate Written(p: Phase)
  {
    p.Stored? || p.Released? || p.Exited? || p.Skipped?
  }

  /** What the records of subtask `i` say, given its phase. */
  predicate Consistent(i: nat, p: Phase, result: Option<SubtaskOutcome>, writes: nat, status: Status)
  {
    && (result.Some? <==> Written(p))
    && writes == (if Written(p) then 1 else 0)
    && (result.Some? ==> result.value.index == i)
    && match p
       case Working => status == Running
       case Concluded(o) => o.index == i && status == (if o.err then Failed else Success)
       case Skipped => status == Pending && result.value.err
       case Stored => status == (if result.value.err then Failed else Success)
       case Released => status == (if result.value.err then Failed else Success)
       case Exited => status == (if result.value.err then Failed else Success)
       case _ => status == Pending
  }

  predicate LauncherAgrees(main: Launcher, phases: seq<Phase>, i: nat)
    requires i < |phases|
  {
    match main
    case AtSpec(k) => phases[i].Idle? <==> i >= k
    case Acquiring(k) => phases[i].Idle? <==> i >= k
    case Joining => !phases[i].Idle?
    case Finished => phases[i].Exited? || phases[i].Skipped?
  }

  predicate Inv(workers: nat, n: nat, s: Pool)
  {
    && Sized(s, n)
    && s.held == Sum(Holds, s.phases) && s.held <= workers
    && s.group == Sum(Alive, s.phases) + (if s.main.Acquiring? then 1 else 0)
    && (s.main.AtSpec? ==> s.main.i <= n) && (s.main.Acquiring? ==> s.main.i < n)
    && (forall i :: 0 <= i < n ==> Consistent(i, s.phases[i], s.results[i], s.writes[i], s.statuses[i]))
    && (forall i :: 0 <= i < n ==> LauncherAgrees(s.main, s.phases, i))
  }

  lemma InitHolds(workers: nat, n: nat)
    ensures Inv(workers, n, Init(n))
  {
    SumOfIdle(n);
  }

  /** The subtask an event concerns, if any. */
  function Subject(s: Pool, ev: Event): Option<nat>
  {
    match ev
    case Begin(i) => Some(i)
    case Conclude(i, _, _) => Some(i)
    case Store(i) => Some(i)
    case Release(i) => Some(i)
    case Exit(i) => Some(i)
    case Check => if s.main.AtSpec? && s.main.i < |s.phases| && s.cancelled then Some(s.main.i) else None
    case Acquire => if s.main.Acquiring? then Some(s.main.i) else None
    case _ => None
  }

  lemma SumsAfter(s: Pool, i: nat, p: Phase)
    requires i < |s.phases|
    ensures Sum(Holds, s.phases[i := p]) + Holds(s.phases[i]) == Sum(Holds, s.phases) + Holds(p)
    ensures Sum(Alive, s.phases[i := p]) + Alive(s.phases[i]) == Sum(Alive, s.phases) + Alive(p)
    ensures Sum(Rank, s.phases[i := p]) + Rank(s.phases[i]) == Sum(Rank, s.phases) + Rank(p)
    ensures Sum(Holds, s.phases) >= Holds(s.phases[i]) && Sum(Alive, s.phases) >= Alive(s.phases[i])
  {
    SumUpdate(Holds, s.phases, i, p);
    SumUpdate(Alive, s.phases, i, p);
    SumUpdate(Rank, s.phases, i, p);
    SumAtLeast(Holds, s.phases, i);
    SumAtLeast(Alive, s.phases, i);
  }

  lemma {:induction false} AllDone(ps: seq<Phase>)
    requires Sum(Alive, ps) == 0
    ensures forall i :: 0 <= i < |ps| ==> Alive(ps[i]) == 0
  {
    forall i | 0 <= i < |ps|
      ensures Alive(ps[i]) == 0
    {
      SumAtLeast(Alive, ps, i);
    }
  }

  /** `t` differs from `s` at most in the records of subtask `i`, its launcher
      and its counters. */
  predicate Local(s: Pool, t: Pool, i: nat)
  {
    && Sized(s, |s.phases|) && i < |s.phases| && Sized(t, |s.phases|)
    && t.phases == s.phases[i := t.phases[i]]
    && t.results == s.results[i := t.results[i]]
    && t.writes == s.writes[i := t.writes[i]]
    && t.statuses == s.statuses[i := t.statuses[i]]
  }

  lemma StepsAreLocal(workers: nat, s: Pool, ev: Event)
    requires Sized(s, |s.phases|) && Next(workers, s, ev).Some? && Subject(s, ev).Some?
    ensures Local(s, Next(workers, s, ev).value, Subject(s, ev).value)
  {
  }

  /** What a local step has to show to keep the invariant. */
  lemma LocalKeepsInv(workers: nat, n: nat, s: Pool, t: Pool, i: nat)
    requires Inv(workers, n, s) && Local(s, t, i)
    requires t.held + Holds(s.phases[i]) == s.held + Holds(t.phases[i]) && t.held <= workers
    requires t.group + Alive(s.phases[i]) + (if s.main.Acquiring? then 1 else 0)
          == s.group + Alive(t.phases[i]) + (if t.main.Acquiring? then 1 else 0)
    requires (t.main.AtSpec? ==> t.main.i <= n) && (t.main.Acquiring? ==> t.main.i < n)
    requires Consistent(i, t.phases[i], t.results[i], t.writes[i], t.statuses[i])
    requires forall k :: 0 <= k < n ==> LauncherAgrees(t.main, t.phases, k)
    ensures Inv(workers, n, t)
  {
    hide LauncherAgrees, Consistent;
    SumsAfter(s, i, t.phases[i]);
    forall k | 0 <= k < n
      ensures Consistent(k, t.phases[k], t.results[k], t.writes[k], t.statuses[k])
    {
      assert Consistent(k, s.phases[k], s.results[k], s.writes[k], s.statuses[k]);
    }
  }

  /** A goroutine's step leaves the launcher's view of every subtask as it was. */
  lemma LauncherStillAgrees(s: Pool, t: Pool, i: nat)
    requires Local(s, t, i) && t.main == s.main
    requires !s.phases[i].Idle? && !t.phases[i].Idle?
    requires s.main.Finished? ==> t.phases[i].Exited? || t.phases[i].Skipped?
    requires forall k :: 0 <= k < |s.phases| ==> LauncherAgrees(s.main, s.phases, k)
    ensures forall k :: 0 <= k < |s.phases| ==> LauncherAgrees(t.main, t.phases, k)
  {
    forall k | 0 <= k < |s.phases|
      ensures LauncherAgrees(t.main, t.phases, k)
    {
      assert LauncherAgrees(s.main, s.phases, k);
    }
  }

  lemma GoroutineStepKeepsInv(workers: nat, n: nat, s: Pool, ev: Event, i: nat)
    requires Inv(workers, n, s) && Next(workers, s, ev).Some?
    requires Subject(s, ev) == Some(i) && !ev.Check? && !ev.Acquire?
    ensures Inv(workers, n, Next(workers, s, ev).value)
  {
    var t := Next(workers, s, ev).value;
    assert LauncherAgrees(s.main, s.phases, i);
    assert Consistent(i, s.phases[i], s.results[i], s.writes[i], s.statuses[i]);
    StepsAreLocal(workers, s, ev);
    LauncherStillAgrees(s, t, i);
    LocalKeepsInv(workers, n, s, t, i);
  }

  lemma LauncherStepKeepsInv(workers: nat, n: nat, s: Pool, ev: Event)
    requires Inv(workers, n, s) && Next(workers, s, ev).Some?
    requires ev.Cancel? || ev.Check? || ev.Acquire? || ev.Join?
    ensures Inv(workers, n, Next(workers, s, ev).value)
  {
    var t := Next(workers, s, ev).value;
    var subject := Subject(s, ev);
    assert forall k :: 0 <= k < n ==> LauncherAgrees(s.main, s.phases, k);
    if ev.Join? {
      AllDone(s.phases);
    }
    forall k | 0 <= k < n
      ensures LauncherAgrees(t.main, t.phases, k)
    {
      assert LauncherAgrees(s.main, s.phases, k);
    }
    if subject.Some? {
      assert LauncherAgrees(s.main, s.phases, subject.value);
      assert Consistent(subject.value, s.phases[subject.value], s.results[subject.value], s.writes[subject.value],
                        s.statuses[subject.value]);
      StepsAreLocal(workers, s, ev);
      LocalKeepsInv(workers, n, s, t, subject.value);
    }
  }

  /** Every step keeps the invariant. */
  lemma StepKeepsInv(workers: nat, n: nat, s: Pool, ev: Event)
    requires Inv(workers, n, s) && Next(workers, s, ev).Some?
    ensures Inv(workers, n, Next(workers, s, ev).value)
  {
    if ev.Cancel? || ev.Check? || ev.Acquire? || ev.Join? {
      LauncherStepKeepsInv(workers, n, s, ev);
    } else {
      GoroutineStepKeepsInv(workers, n, s, ev, ev.i);
    }
  }

  // ---- whole runs -------------------------------------------------------

  /** The events can happen one after another from `s`, ending in `t`. */
  predicate Leads(workers: nat, s: Pool, evs: seq<Event>, t: Pool)
    requires Sized(s, |s.phases|)
    decreases |evs|
  {
    if evs == [] then s == t
    else
      var s' := Next(workers, s, evs[0]);
      s'.Some? && Leads(workers, s'.value, evs[1..], t)
  }

  /** So every run keeps it. */
  lemma {:induction false} RunsKeepInv(workers: nat, n: nat, s: Pool, evs: seq<Event>, t: Pool)
    requires Inv(workers, n, s) && Leads(workers, s, evs, t)
    ensures Inv(workers, n, t)
    decreases |evs|
  {
    if evs != [] {
      StepKeepsInv(workers, n, s, evs[0]);
      RunsKeepInv(workers, n, Next(workers, s, evs[0]).value, evs[1..], t);
    }
  }

  /** Safety over every run: in any state any interleaving can reach, at most
      `workers` subtasks hold a slot, and every result was written at most once
      and carries its own index; when the launcher has returned, exactly once. */
  lemma PoolIsSafe(workers: nat, n: nat, evs: seq<Event>, t: Pool)
    requires Leads(workers, Init(n), evs, t)
    ensures Sized(t, n)
    ensures Sum(Holds, t.phases) <= workers
    ensures forall i :: 0 <= i < n ==> t.writes[i] <= 1 && (t.results[i].Some? ==> t.results[i].value.index == i)
    ensures t.main.Finished? ==> forall i :: 0 <= i < n ==> t.writes[i] == 1 && t.results[i].Some?
  {
    InitHolds(workers, n);
    RunsKeepInv(workers, n, Init(n), evs, t);
    forall i | 0 <= i < n
      ensures t.writes[i] <= 1 && (t.results[i].Some? ==> t.results[i].value.index == i)
      ensures t.main.Finished? ==> t.writes[i] == 1 && t.results[i].Some?
    {
      assert Consistent(i, t.phases[i], t.results[i], t.writes[i], t.statuses[i]);
      assert LauncherAgrees(t.main, t.phases, i);
    }
  }

  // ---- progress ---------------------------------------------------------

  function MainRank(main: Launcher, n: nat): int
  {
    match main
    case AtSpec(i) => 2 * (n - i) + 2
    case Acquiring(i) => 2 * (n - i) + 1
    case Joining => 1
    case Finished => 0
  }

  /** A bound on the steps that can still be taken. */
  function Measure(s: Pool): int
  {
    Sum(Rank, s.phases) + MainRank(s.main, |s.phases|) + (if s.cancelled then 0 else 1)
  }

  lemma RankAfter(workers: nat, s: Pool, ev: Event, i: nat)
    requires Sized(s, |s.phases|) && Next(workers, s, ev).Some? && Subject(s, ev) == Some(i)
    ensures var t := Next(workers, s, ev).value;
            Sum(Rank, t.phases) + Rank(s.phases[i]) == Sum(Rank, s.phases) + Rank(t.phases[i])
  {
    StepsAreLocal(workers, s, ev);
    SumUpdate(Rank, s.phases, i, Next(workers, s, ev).value.phases[i]);
  }

  /** What is left to do for subtask `i` and the launcher. */
  function Remaining(s: Pool, i: nat): int
    requires i < |s.phases|
  {
    Rank(s.phases[i]) + MainRank(s.main, |s.phases|)
  }

  lemma SubjectStepsShrink(workers: nat, s: Pool, ev: Event, i: nat)
    requires Sized(s, |s.phases|) && Next(workers, s, ev).Some? && Subject(s, ev) == Some(i)
    requires LauncherAgrees(s.main, s.phases, i)
    ensures var t := Next(workers, s, ev).value;
            |t.phases| == |s.phases| && t.cancelled == s.cancelled && Remaining(t, i) < Remaining(s, i)
  {
  }

  lemma OtherStepsShrink(workers: nat, s: Pool, ev: Event)
    requires Sized(s, |s.phases|) && Next(workers, s, ev).Some? && Subject(s, ev) == None
    requires s.main.AtSpec? ==> s.main.i <= |s.phases|
    ensures Measure(Next(workers, s, ev).value) < Measure(s)
  {
  }

  lemma MeasureIsNatural(workers: nat, n: nat, s: Pool)
    requires Inv(workers, n, s)
    ensures Measure(s) >= 0
  {
  }

  lemma SubjectInRange(workers: nat, s: Pool, ev: Event)
    requires Sized(s, |s.phases|) && Next(workers, s, ev).Some? && Subject(s, ev).Some?
    ensures Subject(s, ev).value < |s.phases|
  {
  }

  /** Every step brings the run closer to its end. */
  lemma StepsShrinkMeasure(workers: nat, n: nat, s: Pool, ev: Event)
    requires Inv(workers, n, s) && Next(workers, s, ev).Some?
    ensures 0 <= Measure(Next(workers, s, ev).value) < Measure(s)
  {
    hide Next, Sum, Rank, MainRank, LauncherAgrees, Consistent;
    StepKeepsInv(workers, n, s, ev);
    MeasureIsNatural(workers, n, Next(workers, s, ev).value);
    var subject := Subject(s, ev);
    if subject.Some? {
      SubjectInRange(workers, s, ev);
      SubjectStepsShrink(workers, s, ev, subject.value);
      RankAfter(workers, s, ev, subject.value);
    } else {
      OtherStepsShrink(workers, s, ev);
    }
  }

  lemma {:induction false} MeasureBoundsRun(workers: nat, n: nat, s: Pool, evs: seq<Event>, t: Pool)
    requires Inv(workers, n, s) && Leads(workers, s, evs, t)
    ensures |evs| + Measure(t) <= Measure(s) && Measure(t) >= 0
    decreases |evs|
  {
    if evs != [] {
      var s' := Next(workers, s, evs[0]).value;
      StepKeepsInv(workers, n, s, evs[0]);
      StepsShrinkMeasure(workers, n, s, evs[0]);
      MeasureBoundsRun(workers, n, s', evs[1..], t);
    }
  }

  /** Every run is finite: with `n` subtasks there are at most `8n + 3` steps. */
  lemma {:induction false} RunsAreBounded(workers: nat, n: nat, evs: seq<Event>, t: Pool)
    requires Leads(workers, Init(n), evs, t)
    ensures |evs| <= 8 * n + 3
  {
    InitHolds(workers, n);
    SumOfIdle(n);
    MeasureBoundsRun(workers, n, Init(n), evs, t);
  }

  /** A step a subtask in this phase can take. */
  function OwnStep(i: nat, p: Phase): Event
  {
    match p
    case Started => Begin(i)
    case Working => Conclude(i, "", false)
    case Concluded(_) => Store(i)
    case Stored => Release(i)
    case _ => Exit(i)
  }

  lemma OwnStepEnabled(workers: nat, n: nat, s: Pool, i: nat)
    requires Inv(workers, n, s) && i < n && Alive(s.phases[i]) > 0
    ensures Next(workers, s, OwnStep(i, s.phases[i])).Some?
  {
    SumAtLeast(Holds, s.phases, i);
    SumAtLeast(Alive, s.phases, i);
  }

  /** No deadlock: unless `execute` has returned, some step other than a
      cancellation is possible, given at least one worker and subtask bodies
      that come to an end. */
  lemma NeverStuck(workers: nat, n: nat, s: Pool) returns (ev: Event)
    requires workers >= 1 && Inv(workers, n, s) && !s.main.Finished?
    ensures !ev.Cancel? && Next(workers, s, ev).Some?
  {
    match s.main {
      case AtSpec(i) => ev := Check;
      case Acquiring(i) =>
        if s.held < workers {
          ev := Acquire;
        } else {
          var j := SumPositive(Holds, s.phases);
          OwnStepEnabled(workers, n, s, j);
          ev := OwnStep(j, s.phases[j]);
        }
      case Joining =>
        if s.group == 0 {
          ev := Join;
        } else {
          var j := SumPositive(Alive, s.phases);
          OwnStepEnabled(workers, n, s, j);
          ev := OwnStep(j, s.phases[j]);
        }
    }
  }

  /** Nothing has started, and without a slot to acquire nothing can. */
  predicate NotStarted(s: Pool, n: nat)
  {
    && Sized(s, n) && s.held == 0 && !s.cancelled
    && (s.main == AtSpec(0) || s.main == Acquiring(0))
    && forall i :: 0 <= i < n ==> s.phases[i].Idle?
  }

  lemma {:induction false} NoWorkersStart(n: nat, s: Pool, evs: seq<Event>, t: Pool)
    requires n >= 1 && NotStarted(s, n) && Leads(0, s, evs, t) && Cancel !in evs
    ensures NotStarted(t, n)
    decreases |evs|
  {
    if evs != [] {
      assert evs[0] in evs;
      NoWorkersStart(n, Next(0, s, evs[0]).value, evs[1..], t);
    }
  }

  /** Without a worker `execute` would never return: with subtasks to run, no
      run without a cancellation launches one or reaches the end. */
  lemma NoWorkersHang(n: nat, evs: seq<Event>, t: Pool)
    requires n >= 1 && Leads(0, Init(n), evs, t) && Cancel !in evs
    ensures Sized(t, n) && !t.main.Finished? && forall i :: 0 <= i < n ==> t.phases[i].Idle?
  {
    NoWorkersStart(n, Init(n), evs, t);
  }

  // ---- statuses ---------------------------------------------------------

  predicate StatusMove(a: Status, b: Status)
  {
    a == b || (a.Pending? && b.Running?) || (a.Running? && (b.Success? || b.Failed?)) || (a.Pending? && b.Failed?)
  }

  /** A subtask's status only moves from pending to running to success or
      failed, or from pending straight to failed. */
  lemma StatusesMoveForward(workers: nat, n: nat, s: Pool, ev: Event, i: nat)
    requires Inv(workers, n, s) && Next(workers, s, ev).Some? && i < n
    ensures StatusMove(s.statuses[i], Next(workers, s, ev).value.statuses[i])
    ensures s.statuses[i] != Next(workers, s, ev).value.statuses[i] ==> Subject(s, ev) == Some(i)
  {
    assert Consistent(i, s.phases[i], s.results[i], s.writes[i], s.statuses[i]);
  }

  /** When `execute` returns, every subtask was either passed over, with status
      still pending and an error outcome, or has ended: success exactly if its
      outcome has no error, failed otherwise, and never still running. */
  lemma FinalStatuses(workers: nat, n: nat, evs: seq<Event>, t: Pool, i: nat)
    requires Leads(workers, Init(n), evs, t) && t.main.Finished? && i < n
    ensures Sized(t, n) && t.results[i].Some?
    ensures t.statuses[i] == Success <==> !t.results[i].value.err
    ensures t.statuses[i] != Running
    ensures t.statuses[i] == Pending <==> t.phases[i] == Skipped
  {
    InitHolds(workers, n);
    RunsKeepInv(workers, n, Init(n), evs, t);
    assert Consistent(i, t.phases[i], t.results[i], t.writes[i], t.statuses[i]);
    assert LauncherAgrees(t.main, t.phases, i);
  }

  /** In every reachable state a status says where its subtask is: pending until
      its goroutine gets to work, running while it works, and after that success
      or failed by its outcome. A subtask passed over stays pending. */
  lemma StatusesFollowPhases(workers: nat, n: nat, evs: seq<Event>, t: Pool, i: nat)
    requires Leads(workers, Init(n), evs, t) && i < n
    ensures Sized(t, n)
    ensures t.statuses[i] == Pending <==> t.phases[i].Idle? || t.phases[i].Started? || t.phases[i].Skipped?
    ensures t.statuses[i] == Running <==> t.phases[i].Working?
    ensures t.phases[i].Concluded? ==> t.statuses[i] == if t.phases[i].out.err then Failed else Success
    ensures t.phases[i].Stored? || t.phases[i].Released? || t.phases[i].Exited? ==>
              t.results[i].Some? && t.statuses[i] == if t.results[i].value.err then Failed else Success
  {
    InitHolds(workers, n);
    RunsKeepInv(workers, n, Init(n), evs, t);
    assert Consistent(i, t.phases[i], t.results[i], t.writes[i], t.statuses[i]);
  }

  lemma {:induction false} HoldersCounted(ps: seq<Phase>)
    ensures Sum(Holds, ps) ==
            |set i | 0 <= i < |ps| && (ps[i].Started? || ps[i].Working? || ps[i].Concluded? || ps[i].Stored?)|
  {
    if ps != [] {
      var n := |ps| - 1;
      HoldersCounted(ps[..n]);
      var before := set i | 0 <= i < n &&
        (ps[..n][i].Started? || ps[..n][i].Working? || ps[..n][i].Concluded? || ps[..n][i].Stored?);
      var all := set i | 0 <= i < |ps| && (ps[i].Started? || ps[i].Working? || ps[i].Concluded? || ps[i].Stored?);
      assert all == if Holds(ps[n]) == 1 then before + {n} else before;
    }
  }

  /** Subtasks are launched in order, and at any moment no more of them are
      between getting their slot and giving it back than there are workers. */
  lemma LaunchedInOrder(workers: nat, n: nat, evs: seq<Event>, t: Pool)
    requires Leads(workers, Init(n), evs, t)
    ensures Sized(t, n)
    ensures forall i, j :: 0 <= i < j < n && t.phases[i].Idle? ==> t.phases[j].Idle?
    ensures |set i | 0 <= i < |t.phases| && (t.phases[i].Started? || t.phases[i].Working?
                                            || t.phases[i].Concluded? || t.phases[i].Stored?)| <= workers
  {
    InitHolds(workers, n);
    RunsKeepInv(workers, n, Init(n), evs, t);
    HoldersCounted(t.phases);
    forall i, j | 0 <= i < j < n && t.phases[i].Idle?
      ensures t.phases[j].Idle?
    {
      assert LauncherAgrees(t.main, t.phases, i) && LauncherAgrees(t.main, t.phases, j);
    }
  }

  // ---- cancellation ------------------------------------------------------

  lemma {:induction false} LeadsThrough(workers: nat, s: Pool, pre: seq<Event>, post: seq<Event>, t: Pool)
    returns (m: Pool)
    requires Sized(s, |s.phases|) && Leads(workers, s, pre + post, t)
    ensures Sized(m, |s.phases|) && Leads(workers, s, pre, m) && Leads(workers, m, post, t)
    decreases |pre|
  {
    if pre == [] {
      assert pre + post == post;
      m := s;
    } else {
      assert (pre + post)[0] == pre[0] && (pre + post)[1..] == pre[1..] + post;
      m := LeadsThrough(workers, Next(workers, s, pre[0]).value, pre[1..], post, t);
    }
  }

  /** Subtask `i` is out: the context is done, and it has not begun. */
  predicate Out(s: Pool, i: nat)
    requires Sized(s, |s.phases|) && i < |s.phases|
  {
    && s.cancelled && s.main != Acquiring(i) && s.statuses[i] == Pending
    && (s.phases[i].Idle? || (s.phases[i].Skipped? && s.results[i] == Some(SubtaskOutcome(i, "", true))))
  }

  lemma {:induction false} OutStaysOut(workers: nat, s: Pool, evs: seq<Event>, t: Pool, i: nat)
    requires Sized(s, |s.phases|) && i < |s.phases| && Out(s, i) && Leads(workers, s, evs, t)
    ensures Sized(t, |s.phases|) && Out(t, i)
    ensures Begin(i) !in evs && forall result, err :: Conclude(i, result, err) !in evs
    decreases |evs|
  {
    if evs != [] {
      var next := Next(workers, s, evs[0]).value;
      assert Out(next, i);
      OutStaysOut(workers, next, evs[1..], t, i);
      assert evs == [evs[0]] + evs[1..];
    }
  }

  lemma {:induction false} SkippedMeansCancelled(workers: nat, s: Pool, evs: seq<Event>, t: Pool)
    requires Sized(s, |s.phases|) && Leads(workers, s, evs, t)
    requires forall i :: 0 <= i < |s.phases| && s.phases[i].Skipped? ==> s.cancelled
    ensures Sized(t, |s.phases|) && forall i :: 0 <= i < |t.phases| && t.phases[i].Skipped? ==> t.cancelled
    decreases |evs|
  {
    if evs != [] {
      SkippedMeansCancelled(workers, Next(workers, s, evs[0]).value, evs[1..], t);
    }
  }

  lemma LaunchedStepStays(workers: nat, n: nat, s: Pool, ev: Event, i: nat)
    requires Inv(workers, n, s) && i < n && !s.phases[i].Idle? && !s.phases[i].Skipped?
    requires Next(workers, s, ev).Some?
    ensures var t := Next(workers, s, ev).value; Sized(t, n) && !t.phases[i].Idle? && !t.phases[i].Skipped?
  {
    assert LauncherAgrees(s.main, s.phases, i);
    hide LauncherAgrees, Consistent, Sum;
  }

  lemma {:induction false} LaunchedStayIn(workers: nat, n: nat, s: Pool, evs: seq<Event>, t: Pool, i: nat)
    requires Inv(workers, n, s) && i < n && !s.phases[i].Idle? && !s.phases[i].Skipped? && Leads(workers, s, evs, t)
    ensures Sized(t, n) && !t.phases[i].Idle? && !t.phases[i].Skipped?
    decreases |evs|
  {
    hide Next, LauncherAgrees, Consistent, Sum;
    if evs != [] {
      StepKeepsInv(workers, n, s, evs[0]);
      LaunchedStepStays(workers, n, s, evs[0], i);
      LaunchedStayIn(workers, n, Next(workers, s, evs[0]).value, evs[1..], t, i);
    }
  }

  /** Cancellation, whenever it comes: every subtask the launcher had not looked
      at by then never begins. Its status stays pending, and once `execute` has
      returned its result is the context's error under its own index. A subtask
      launched by then is not passed over. Of the others at most one may still
      start, the one that was then waiting for a slot. */
  lemma CancelledStayOut(workers: nat, n: nat, pre: seq<Event>, post: seq<Event>, t: Pool) returns (m: Pool)
    requires Leads(workers, Init(n), pre + [Cancel] + post, t)
    ensures Sized(m, n) && Sized(t, n) && Leads(workers, Init(n), pre, m)
    ensures forall i :: 0 <= i < n && m.phases[i].Idle? && m.main != Acquiring(i) ==>
              && Begin(i) !in post && (forall result, err :: Conclude(i, result, err) !in post)
              && t.statuses[i] == Pending
              && (t.main.Finished? ==> t.results[i] == Some(SubtaskOutcome(i, "", true)))
    ensures forall i :: 0 <= i < n ==>
              (m.phases[i].Idle? <==>
                 match m.main
                 case AtSpec(k) => i >= k
                 case Acquiring(k) => i >= k
                 case _ => false)
    ensures forall i :: 0 <= i < n && !m.phases[i].Idle? ==> !t.phases[i].Idle? && !t.phases[i].Skipped?
  {
    assert pre + [Cancel] + post == pre + ([Cancel] + post);
    m := LeadsThrough(workers, Init(n), pre, [Cancel] + post, t);
    assert ([Cancel] + post)[0] == Cancel && ([Cancel] + post)[1..] == post;
    var c := Next(workers, m, Cancel).value;
    assert Leads(workers, c, post, t);
    InitHolds(workers, n);
    RunsKeepInv(workers, n, Init(n), pre, m);
    RunsKeepInv(workers, n, Init(n), pre + [Cancel] + post, t);
    SkippedMeansCancelled(workers, Init(n), pre, m);
    StepKeepsInv(workers, n, m, Cancel);
    hide Leads;
    forall i | 0 <= i < n && !m.phases[i].Idle?
      ensures !t.phases[i].Idle? && !t.phases[i].Skipped?
    {
      LaunchedStayIn(workers, n, c, post, t, i);
    }
    forall i | 0 <= i < n && m.phases[i].Idle? && m.main != Acquiring(i)
      ensures Begin(i) !in post && forall result, err :: Conclude(i, result, err) !in post
      ensures t.statuses[i] == Pending
      ensures t.main.Finished? ==> t.results[i] == Some(SubtaskOutcome(i, "", true))
    {
      assert Consistent(i, m.phases[i], m.results[i], m.writes[i], m.statuses[i]);
      OutStaysOut(workers, c, post, t, i);
      assert LauncherAgrees(t.main, t.phases, i);
    }
    forall i | 0 <= i < n
      ensures m.phases[i].Idle? <==>
                match m.main
                case AtSpec(k) => i >= k
                case Acquiring(k) => i >= k
                case _ => false
    {
      assert LauncherAgrees(m.main, m.phases, i);
    }
  }
}
