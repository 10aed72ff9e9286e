/** Several runs sharing one side-effect store. `Apply` and `Undo` are atomic;
    between any two of them any other run may take a step. */
module Interleaving {
  import opened Values
  import opened Rollback

  datatype Op = Do(run: nat, e: Effect) | Undo(run: nat)

  /** The shared data and, per run, its records not yet undone. */
  datatype World = World(data: Data, logs: map<nat, seq<EffectRecord>>)

  function Log(w: World, r: nat): seq<EffectRecord>
  {
    if r in w.logs then w.logs[r] else []
  }

  /** One atomic step: apply an effect and record it, or undo the run's latest record. */
  function Step(w: World, op: Op): World
  {
    match op
    case Do(r, e) => World(Applied(w.data, e), w.logs[r := Log(w, r) + [RecordOf(w.data, e)]])
    case Undo(r) =>
      var recs := Log(w, r);
      if recs == [] then w
      else World(Undone(w.data, recs[|recs| - 1]), w.logs[r := recs[..|recs| - 1]])
  }

  function Exec(data: Data, ops: seq<Op>): World
  {
    if ops == [] then World(data, map[]) else Step(Exec(data, ops[..|ops| - 1]), ops[|ops| - 1])
  }

  /** The keys run `r` writes. */
  function Keys(ops: seq<Op>, r: nat): set<string>
  {
    set op | op in ops && op.Do? && op.run == r :: KeyOf(op.e)
  }

  /** No other run ever writes a key that run `r` writes. */
  predicate KeysApart(ops: seq<Op>, r: nat)
  {
    forall op :: op in ops && op.Do? && op.run != r ==> KeyOf(op.e) !in Keys(ops, r)
  }

  /** The same schedule with run `r`'s steps left out. */
  function Without(ops: seq<Op>, r: nat): seq<Op>
  {
    if ops == [] then []
    else Without(ops[..|ops| - 1], r) + (if ops[|ops| - 1].run == r then [] else [ops[|ops| - 1]])
  }

  predicate LogWithin(recs: seq<EffectRecord>, keys: set<string>)
  {
    forall i :: 0 <= i < |recs| ==> KeyOf(recs[i].effect) in keys
  }

  /** The key a step may write, if any. */
  function Writes(w: World, op: Op): Option<string>
  {
    match op
    case Do(_, e) => Some(KeyOf(e))
    case Undo(r) => if Log(w, r) == [] then None else Some(KeyOf(Log(w, r)[|Log(w, r)| - 1].effect))
  }

  /** A step of a run that writes only `keys` changes nothing else. */
  lemma StepsStayWithin(w: World, op: Op, keys: set<string>)
    requires LogWithin(Log(w, op.run), keys) && (op.Do? ==> KeyOf(op.e) in keys)
    ensures forall k :: k !in keys ==> Entry(Step(w, op).data, k) == Entry(w.data, k)
    ensures forall s :: s != op.run ==> Log(Step(w, op), s) == Log(w, s)
    ensures LogWithin(Log(Step(w, op), op.run), keys)
  {
    forall k | k !in keys
      ensures Entry(Step(w, op).data, k) == Entry(w.data, k)
    {
      assert Writes(w, op) != Some(k);
    }
  }

  lemma OtherLogsStay(w: World, op: Op, s: nat)
    requires s != op.run
    ensures Log(Step(w, op), s) == Log(w, s)
  {
  }

  lemma {:induction false} LogsStayWithin(data: Data, ops: seq<Op>, r: nat)
    ensures LogWithin(Log(Exec(data, ops), r), Keys(ops, r))
  {
    hide Step, KeyOf;
    if ops != [] {
      var init, op := ops[..|ops| - 1], ops[|ops| - 1];
      LogsStayWithin(data, init, r);
      assert ops == init + [op];
      assert Keys(init, r) <= Keys(ops, r);
      if op.run == r {
        StepsStayWithin(Exec(data, init), op, Keys(ops, r));
      } else {
        OtherLogsStay(Exec(data, init), op, r);
      }
    }
  }

  lemma StepFrame(w: World, op: Op, k: string)
    requires Writes(w, op) != Some(k)
    ensures Entry(Step(w, op).data, k) == Entry(w.data, k)
  {
  }

  /** What key `k` would read if run `r` undid all it has outstanding now. */
  function Origin(w: World, r: nat, k: string): Value
  {
    match FirstPrior(Log(w, r), k)
    case Some(v) => v
    case None => Read(w.data, k)
  }

  lemma FirstPriorGrows(recs: seq<EffectRecord>, rec: EffectRecord, k: string)
    ensures FirstPrior(recs + [rec], k) ==
            if FirstPrior(recs, k).Some? then FirstPrior(recs, k)
            else if KeyOf(rec.effect) == k then Some(rec.prior) else None
  {
    assert (recs + [rec])[..|recs|] == recs;
  }

  /** Run `r`'s own steps do not change what its keys would be restored to. */
  lemma OwnStepKeepsOrigin(w: World, op: Op, k: string)
    ensures Origin(Step(w, op), op.run, k) == Origin(w, op.run, k)
  {
    var recs := Log(w, op.run);
    match op {
      case Do(r, e) =>
        FirstPriorGrows(recs, RecordOf(w.data, e), k);
      case Undo(r) =>
        if recs != [] {
          var init, last := recs[..|recs| - 1], recs[|recs| - 1];
          assert recs == init + [last];
          FirstPriorGrows(init, last, k);
        }
    }
  }

  lemma OthersWriteElsewhere(w: World, init: seq<Op>, op: Op, keys: set<string>)
    requires LogWithin(Log(w, op.run), Keys(init, op.run))
    requires forall o :: o in init && o.Do? && o.run == op.run ==> KeyOf(o.e) !in keys
    requires op.Do? ==> KeyOf(op.e) !in keys
    ensures Writes(w, op).Some? ==> Writes(w, op).value !in keys
  {
  }

  lemma {:induction false} OriginIsInitial(data: Data, ops: seq<Op>, r: nat, k: string, keys: set<string>)
    requires k in keys && Keys(ops, r) <= keys
    requires forall op :: op in ops && op.Do? && op.run != r ==> KeyOf(op.e) !in keys
    ensures Origin(Exec(data, ops), r, k) == Read(data, k)
  {
    if ops != [] {
      var init, op := ops[..|ops| - 1], ops[|ops| - 1];
      assert ops == init + [op] && forall o :: o in init ==> o in ops;
      OriginIsInitial(data, init, r, k, keys);
      var w := Exec(data, init);
      if op.run == r {
        OwnStepKeepsOrigin(w, op, k);
      } else {
        LogsStayWithin(data, init, op.run);
        assert Writes(w, op) != Some(k) by {
          OthersWriteElsewhere(w, init, op, keys);
        }
        StepFrame(w, op, k);
      }
    }
  }

  lemma ExecSnoc(data: Data, ops: seq<Op>, op: Op)
    ensures Exec(data, ops + [op]) == Step(Exec(data, ops), op)
    ensures Without(ops + [op], op.run) == Without(ops, op.run)
    ensures forall r :: r != op.run ==> Without(ops + [op], r) == Without(ops, r) + [op]
  {
    assert (ops + [op])[..|ops|] == ops;
  }

  // ---- what a run leaves behind ------------------------------------------

  /** Run `r` has a record at `k` it has not undone. */
  predicate Holding(w: World, r: nat, k: string)
  {
    FirstPrior(Log(w, r), k).Some?
  }

  /** `w` and `v` differ at most by what run `r` has outstanding in `w`: the
      other runs' logs agree, and every key that `r` would restore, or does not
      hold, reads alike. */
  ghost predicate NoTrace(w: World, v: World, r: nat)
  {
    && (forall s :: s != r ==> Log(w, s) == Log(v, s))
    && (forall k :: Origin(w, r, k) == Read(v.data, k))
  }

  /** The step of another run does not disturb run `r`: it writes no key `r`
      holds, or writes there just what `r` would restore, and records no value
      that `r` will take back. */
  predicate Harmless(w: World, r: nat, op: Op)
  {
    var k := Writes(w, op);
    op.run != r && k.Some? && Holding(w, r, k.value) ==>
      match op
      case Do(_, e) => e.value == Origin(w, r, k.value) == Read(w.data, k.value)
      case Undo(s) => Log(w, s)[|Log(w, s)| - 1].prior == Origin(w, r, k.value)
  }

  lemma OwnStepLeavesNoTrace(w: World, v: World, op: Op)
    requires NoTrace(w, v, op.run)
    ensures NoTrace(Step(w, op), v, op.run)
  {
    var t := Step(w, op);
    forall k
      ensures Origin(t, op.run, k) == Read(v.data, k)
    {
      OwnStepKeepsOrigin(w, op, k);
    }
    forall s | s != op.run
      ensures Log(t, s) == Log(v, s)
    {
      OtherLogsStay(w, op, s);
    }
  }

  lemma OffKeyReads(w: World, v: World, r: nat, op: Op, k: string)
    requires NoTrace(w, v, r) && op.run != r && Writes(w, op) != Some(k)
    ensures Origin(Step(w, op), r, k) == Read(Step(v, op).data, k)
  {
    OtherLogsStay(w, op, r);
    assert Log(w, op.run) == Log(v, op.run);
    StepFrame(w, op, k);
    StepFrame(v, op, k);
    assert Origin(w, r, k) == Read(v.data, k);
  }

  /** At the key a step writes: the readings agree afterwards, and the records
      the two worlds make agree, exactly if the step is harmless. */
  lemma WrittenKeyReads(w: World, v: World, r: nat, op: Op, k: string)
    requires op.run != r && Writes(w, op) == Some(k) && Log(w, op.run) == Log(v, op.run)
    requires Origin(w, r, k) == Read(v.data, k)
    ensures Harmless(w, r, op) <==>
            && Origin(Step(w, op), r, k) == Read(Step(v, op).data, k)
            && Log(Step(w, op), op.run) == Log(Step(v, op), op.run)
  {
    OtherLogsStay(w, op, r);
    match op {
      case Do(s, e) =>
        var recs := Log(w, s);
        assert Log(Step(w, op), s) == recs + [RecordOf(w.data, e)];
        assert Log(Step(v, op), s) == recs + [RecordOf(v.data, e)];
        assert (recs + [RecordOf(w.data, e)])[|recs|] == RecordOf(w.data, e);
        assert (recs + [RecordOf(v.data, e)])[|recs|] == RecordOf(v.data, e);
      case Undo(s) =>
    }
  }

  /** One step of another run keeps the absence of a trace exactly if it is
      harmless. */
  lemma OtherStepLeavesNoTraceExactly(w: World, v: World, r: nat, op: Op)
    requires NoTrace(w, v, r) && op.run != r
    ensures NoTrace(Step(w, op), Step(v, op), r) <==> Harmless(w, r, op)
  {
    var w', v' := Step(w, op), Step(v, op);
    OtherLogsStay(w, op, r);
    assert Log(w, op.run) == Log(v, op.run);
    forall s | s != r && s != op.run
      ensures Log(w', s) == Log(v', s)
    {
      OtherLogsStay(w, op, s);
      OtherLogsStay(v, op, s);
    }
    forall k | Writes(w, op) != Some(k)
      ensures Origin(w', r, k) == Read(v'.data, k)
    {
      OffKeyReads(w, v, r, op, k);
    }
    if Writes(w, op).Some? {
      var k := Writes(w, op).value;
      assert Origin(w, r, k) == Read(v.data, k);
      WrittenKeyReads(w, v, r, op, k);
    }
  }

  // ---- whole schedules ---------------------------------------------------

  lemma WithoutSnoc(ops: seq<Op>, r: nat)
    requires ops != []
    ensures var init, op := ops[..|ops| - 1], ops[|ops| - 1];
            Without(ops, r) == Without(init, r) + (if op.run == r then [] else [op])
  {
  }

  lemma TraceStep(data: Data, ops: seq<Op>, r: nat)
    requires ops != []
    ensures var init, op := ops[..|ops| - 1], ops[|ops| - 1];
            Exec(data, ops) == Step(Exec(data, init), op) &&
            Exec(data, Without(ops, r)) ==
              if op.run == r then Exec(data, Without(init, r)) else Step(Exec(data, Without(init, r)), op)
  {
    hide Step;
    var init, op := ops[..|ops| - 1], ops[|ops| - 1];
    WithoutSnoc(ops, r);
    if op.run == r {
      assert Without(init, r) + [] == Without(init, r);
    } else {
      ExecSnoc(data, Without(init, r), op);
    }
  }

  ghost predicate Traceless(data: Data, ops: seq<Op>, r: nat)
  {
    NoTrace(Exec(data, ops), Exec(data, Without(ops, r)), r)
  }

  /** Every step is harmless to run `r` where it is taken. */
  predicate AllHarmless(data: Data, ops: seq<Op>, r: nat)
  {
    forall i :: 0 <= i < |ops| ==> Harmless(Exec(data, ops[..i]), r, ops[i])
  }

  lemma AllHarmlessSnoc(data: Data, ops: seq<Op>, r: nat)
    requires ops != []
    ensures var init, op := ops[..|ops| - 1], ops[|ops| - 1];
            AllHarmless(data, ops, r) <==> AllHarmless(data, init, r) && Harmless(Exec(data, init), r, op)
  {
    hide Harmless, Exec;
    var init := ops[..|ops| - 1];
    assert forall i :: 0 <= i < |init| ==> init[..i] == ops[..i] && init[i] == ops[i];
    if AllHarmless(data, ops, r) {
      assert ops[..|ops| - 1] == init;
    }
  }

  /** Run `r` could roll back at any moment of the schedule without a trace. */
  ghost predicate AlwaysTraceless(data: Data, ops: seq<Op>, r: nat)
  {
    forall i :: 0 <= i <= |ops| ==> Traceless(data, ops[..i], r)
  }

  lemma AlwaysTracelessSnoc(data: Data, ops: seq<Op>, r: nat)
    requires ops != []
    ensures AlwaysTraceless(data, ops, r) <==> AlwaysTraceless(data, ops[..|ops| - 1], r) && Traceless(data, ops, r)
    ensures AlwaysTraceless(data, ops[..|ops| - 1], r) ==> Traceless(data, ops[..|ops| - 1], r)
  {
    hide Traceless;
    var n := |ops| - 1;
    var init := ops[..n];
    assert ops[..|ops|] == ops && init[..n] == init;
    assert forall i :: 0 <= i <= n ==> init[..i] == ops[..i];
    if AlwaysTraceless(data, ops, r) {
      assert Traceless(data, ops[..|ops|], r);
    }
  }

  lemma NothingDone(data: Data, r: nat)
    ensures AlwaysTraceless(data, [], r) && AllHarmless(data, [], r)
  {
    var none: seq<Op> := [];
    assert forall i :: 0 <= i <= 0 ==> none[..i] == [];
  }

  lemma OwnStepIsHarmless(w: World, r: nat, op: Op)
    requires op.run == r
    ensures Harmless(w, r, op)
  {
  }

  /** Isolation, exactly: run `r` could roll back at any moment of a schedule
      without leaving a trace if and only if every step of the other runs is
      harmless to it. */
  lemma {:induction false} TracelessExactly(data: Data, ops: seq<Op>, r: nat)
    ensures AlwaysTraceless(data, ops, r) <==> AllHarmless(data, ops, r)
    decreases |ops|
  {
    hide Harmless, NoTrace, AlwaysTraceless, AllHarmless, Exec, Without;
    if ops == [] {
      NothingDone(data, r);
    } else {
      var init, op := ops[..|ops| - 1], ops[|ops| - 1];
      TracelessExactly(data, init, r);
      AllHarmlessSnoc(data, ops, r);
      AlwaysTracelessSnoc(data, ops, r);
      TraceStep(data, ops, r);
      if AlwaysTraceless(data, init, r) {
        if op.run == r {
          OwnStepLeavesNoTrace(Exec(data, init), Exec(data, Without(init, r)), op);
          OwnStepIsHarmless(Exec(data, init), r, op);
        } else {
          OtherStepLeavesNoTraceExactly(Exec(data, init), Exec(data, Without(init, r)), r, op);
        }
      }
    }
  }

  /** No other run writes a key while run `r` has an outstanding record on it. */
  predicate Undisturbed(data: Data, ops: seq<Op>, r: nat)
  {
    forall i :: 0 <= i < |ops| && ops[i].run != r ==>
      var w := Exec(data, ops[..i]);
      Writes(w, ops[i]).Some? ==> !Holding(w, r, Writes(w, ops[i]).value)
  }

  lemma UndisturbedIsTraceless(data: Data, ops: seq<Op>, r: nat)
    requires Undisturbed(data, ops, r)
    ensures AlwaysTraceless(data, ops, r)
  {
    TracelessExactly(data, ops, r);
  }

  lemma SameEntry(w: World, v: World, op: Op, k: string)
    requires Log(w, op.run) == Log(v, op.run) && Entry(w.data, k) == Entry(v.data, k)
    ensures Entry(Step(w, op).data, k) == Entry(Step(v, op).data, k)
  {
  }

  /** A key that run `r` never writes has the same entry with and without it. */
  lemma {:induction false} UnwrittenEntry(data: Data, ops: seq<Op>, r: nat, k: string)
    requires AlwaysTraceless(data, ops, r)
    requires k !in Keys(ops, r)
    ensures Entry(Exec(data, ops).data, k) == Entry(Exec(data, Without(ops, r)).data, k)
    decreases |ops|
  {
    if ops != [] {
      var n := |ops| - 1;
      var init, op := ops[..n], ops[n];
      assert ops == init + [op] && op in ops && Keys(init, r) <= Keys(ops, r);
      AlwaysTracelessSnoc(data, ops, r);
      UnwrittenEntry(data, init, r, k);
      TraceStep(data, ops, r);
      var w, v := Exec(data, init), Exec(data, Without(init, r));
      assert Traceless(data, init, r);
      if op.run == r {
        LogsStayWithin(data, init, r);
        StepsStayWithin(w, op, Keys(ops, r));
      } else {
        SameEntry(w, v, op, k);
      }
    }
  }

  /** A run that ends with nothing left to undo, on keys that no other run wrote
      while it had an outstanding record there, leaves no trace: however the
      steps were interleaved, every key reads as in the same schedule without
      the run, the other runs have the same left to undo, and keys the run never
      wrote hold exactly the same entry. Runs may share keys one after another. */
  lemma RolledBackRunLeavesNoTrace(data: Data, ops: seq<Op>, r: nat)
    requires Undisturbed(data, ops, r) && Log(Exec(data, ops), r) == []
    ensures forall k :: Read(Exec(data, ops).data, k) == Read(Exec(data, Without(ops, r)).data, k)
    ensures forall s :: s != r ==> Log(Exec(data, ops), s) == Log(Exec(data, Without(ops, r)), s)
    ensures forall k :: k !in Keys(ops, r) ==>
              Entry(Exec(data, ops).data, k) == Entry(Exec(data, Without(ops, r)).data, k)
  {
    UndisturbedIsTraceless(data, ops, r);
    assert ops[..|ops|] == ops;
    assert Traceless(data, ops, r);
    var w, v := Exec(data, ops), Exec(data, Without(ops, r));
    forall k
      ensures Read(w.data, k) == Read(v.data, k)
    {
      assert Origin(w, r, k) == Read(v.data, k) && Origin(w, r, k) == Read(w.data, k);
    }
    forall k | k !in Keys(ops, r)
      ensures Entry(w.data, k) == Entry(v.data, k)
    {
      UnwrittenEntry(data, ops, r, k);
    }
  }

  lemma {:induction false} HeldIsWritten(recs: seq<EffectRecord>, keys: set<string>, k: string)
    requires LogWithin(recs, keys) && FirstPrior(recs, k).Some?
    ensures k in keys
  {
    if FirstPrior(recs[..|recs| - 1], k).Some? {
      HeldIsWritten(recs[..|recs| - 1], keys, k);
    }
  }

  lemma ApartStep(data: Data, ops: seq<Op>, r: nat, i: nat)
    requires KeysApart(ops, r) && i < |ops| && ops[i].run != r
    ensures var w := Exec(data, ops[..i]);
            Writes(w, ops[i]).Some? ==> !Holding(w, r, Writes(w, ops[i]).value)
  {
    var w, op := Exec(data, ops[..i]), ops[i];
    LogsStayWithin(data, ops[..i], r);
    LogsStayWithin(data, ops[..i], op.run);
    assert op in ops && forall o :: o in ops[..i] ==> o in ops;
    if Writes(w, op).Some? && Holding(w, r, Writes(w, op).value) {
      HeldIsWritten(Log(w, r), Keys(ops[..i], r), Writes(w, op).value);
    }
  }

  /** On keys no other run ever writes, a rolled-back run is undisturbed, and
      its own keys read as they did at the start. */
  lemma ApartRunIsRestored(data: Data, ops: seq<Op>, r: nat)
    requires KeysApart(ops, r)
    ensures Undisturbed(data, ops, r)
    ensures Log(Exec(data, ops), r) == [] ==>
              forall k :: k in Keys(ops, r) ==> Read(Exec(data, ops).data, k) == Read(data, k)
  {
    forall i | 0 <= i < |ops| && ops[i].run != r
      ensures var w := Exec(data, ops[..i]);
              Writes(w, ops[i]).Some? ==> !Holding(w, r, Writes(w, ops[i]).value)
    {
      ApartStep(data, ops, r, i);
    }
    forall k | k in Keys(ops, r)
      ensures Origin(Exec(data, ops), r, k) == Read(data, k)
    {
      OriginIsInitial(data, ops, r, k, Keys(ops, r));
    }
  }

  // ---- overlapping on a key ----------------------------------------------

  /** Run `r` takes hold of `k` in the first step of `mid`, holds it throughout
      and lets go of it in the last, while other runs do what they like. */
  predicate Overlap(data: Data, pre: seq<Op>, mid: seq<Op>, r: nat, k: string)
  {
    && mid != [] && mid[0].run == r
    && !Holding(Exec(data, pre), r, k) && !Holding(Exec(data, pre + mid), r, k)
    && forall j :: 1 <= j < |mid| ==> Holding(Exec(data, pre + mid[..j]), r, k)
  }

  lemma OtherStepKeepsHeldOrigin(w: World, op: Op, r: nat, k: string)
    requires op.run != r && Holding(w, r, k)
    ensures Origin(Step(w, op), r, k) == Origin(w, r, k)
  {
    OtherLogsStay(w, op, r);
  }

  lemma ExecOneMore(data: Data, pre: seq<Op>, mid: seq<Op>, j: nat)
    requires 0 < j <= |mid|
    ensures Exec(data, pre + mid[..j]) == Step(Exec(data, pre + mid[..j - 1]), mid[j - 1])
  {
    hide Exec, Step;
    assert pre + mid[..j] == (pre + mid[..j - 1]) + [mid[j - 1]];
    ExecSnoc(data, pre + mid[..j - 1], mid[j - 1]);
  }

  lemma HeldStep(w: World, op: Op, r: nat, k: string)
    requires op.run == r || Holding(w, r, k)
    ensures Origin(Step(w, op), r, k) == Origin(w, r, k)
  {
    if op.run == r {
      OwnStepKeepsOrigin(w, op, k);
    } else {
      OtherStepKeepsHeldOrigin(w, op, r, k);
    }
  }

  lemma OverlapHolds(data: Data, pre: seq<Op>, mid: seq<Op>, r: nat, k: string, j: nat)
    requires Overlap(data, pre, mid, r, k) && j < |mid|
    ensures mid[j].run == r || Holding(Exec(data, pre + mid[..j]), r, k)
  {
  }

  lemma {:induction false} HeldOriginStays(data: Data, pre: seq<Op>, mid: seq<Op>, r: nat, k: string, j: nat)
    requires Overlap(data, pre, mid, r, k) && j <= |mid|
    ensures Origin(Exec(data, pre + mid[..j]), r, k) == Read(Exec(data, pre).data, k)
  {
    if j == 0 {
      assert pre + mid[..0] == pre;
    } else {
      HeldOriginStays(data, pre, mid, r, k, j - 1);
      hide *;
      assert mid[j - 1].run == r || Holding(Exec(data, pre + mid[..j - 1]), r, k) by {
        OverlapHolds(data, pre, mid, r, k, j - 1);
      }
      HeldStep(Exec(data, pre + mid[..j - 1]), mid[j - 1], r, k);
      ExecOneMore(data, pre, mid, j);
    }
  }

  /** Whatever other runs write to a key while a run holds it, the run's
      roll-back takes the key back to what it read before. */
  lemma HeldKeyIsRestored(data: Data, pre: seq<Op>, mid: seq<Op>, r: nat, k: string)
    requires Overlap(data, pre, mid, r, k)
    ensures Read(Exec(data, pre + mid).data, k) == Read(Exec(data, pre).data, k)
  {
    HeldOriginStays(data, pre, mid, r, k, |mid|);
    assert mid[..|mid|] == mid;
  }

  /** So after an undisturbed start, at the moment the run lets go of a key, the
      overlap is visible there exactly if the other runs alone would by then
      have left the key changed. What their own roll-backs bring back later is
      another matter: `Settling` says how such schedules end. */
  lemma OverlapVisibleExactly(data: Data, pre: seq<Op>, mid: seq<Op>, r: nat, k: string)
    requires Undisturbed(data, pre, r) && Overlap(data, pre, mid, r, k)
    ensures Read(Exec(data, pre + mid).data, k) != Read(Exec(data, Without(pre + mid, r)).data, k) <==>
            Read(Exec(data, Without(pre + mid, r)).data, k) != Read(Exec(data, Without(pre, r)).data, k)
  {
    HeldKeyIsRestored(data, pre, mid, r, k);
    UndisturbedIsTraceless(data, pre, r);
    assert pre[..|pre|] == pre;
    assert Traceless(data, pre, r);
    var w, v := Exec(data, pre), Exec(data, Without(pre, r));
    assert Origin(w, r, k) == Read(v.data, k);
  }

  // ---- a run on its own --------------------------------------------------

  function Dos(r: nat, es: seq<Effect>): (ops: seq<Op>)
    ensures |ops| == |es|
  {
    seq(|es|, i requires 0 <= i < |es| => Do(r, es[i]))
  }

  function Undos(r: nat, n: nat): (ops: seq<Op>)
    ensures |ops| == n
  {
    seq(n, _ => Undo(r))
  }

  lemma {:induction false} DosApply(data: Data, r: nat, es: seq<Effect>)
    ensures Exec(data, Dos(r, es)).data == ApplyAll(data, es)
    ensures Log(Exec(data, Dos(r, es)), r) == RecordsOf(data, es)
  {
    if es != [] {
      var n := |es| - 1;
      DosApply(data, r, es[..n]);
      assert Dos(r, es)[..n] == Dos(r, es[..n]);
    }
  }

  lemma {:induction false} UndosUndo(data: Data, ops: seq<Op>, r: nat, n: nat)
    requires n <= |Log(Exec(data, ops), r)|
    ensures var w, recs := Exec(data, ops), Log(Exec(data, ops), r);
            var t := Exec(data, ops + Undos(r, n));
            && Log(t, r) == recs[..|recs| - n]
            && UndoAll(t.data, Log(t, r)) == UndoAll(w.data, recs)
  {
    hide Exec;
    var recs := Log(Exec(data, ops), r);
    if n == 0 {
      assert ops + Undos(r, 0) == ops && recs[..|recs|] == recs;
    } else {
      UndosUndo(data, ops, r, n - 1);
      assert ops + Undos(r, n) == ops + Undos(r, n - 1) + [Undo(r)];
      ExecSnoc(data, ops + Undos(r, n - 1), Undo(r));
      assert recs[..|recs| - (n - 1)][..|recs| - n] == recs[..|recs| - n];
    }
  }

  /** Rolling back at once, after any schedule, takes every key to its origin. */
  lemma RollingBackNow(data: Data, ops: seq<Op>, r: nat, k: string)
    ensures var w := Exec(data, ops);
            var t := Exec(data, ops + Undos(r, |Log(w, r)|));
            Log(t, r) == [] && Read(t.data, k) == Origin(w, r, k)
  {
    var w := Exec(data, ops);
    UndosUndo(data, ops, r, |Log(w, r)|);
    UndoAllAt(w.data, Log(w, r), k);
  }

  /** A run on its own is the roll-back log's: its effects step by step and then
      as many undo steps come to what `RollbackLog` does in two calls. */
  lemma LoneRunIsRollback(data: Data, r: nat, es: seq<Effect>)
    ensures var w := Exec(data, Dos(r, es) + Undos(r, |es|));
            Log(w, r) == [] && w.data == UndoAll(ApplyAll(data, es), RecordsOf(data, es))
  {
    DosApply(data, r, es);
    UndosUndo(data, Dos(r, es), r, |es|);
  }
}
