/** Each run's share of a schedule of store steps, and what follows from the
    shares alone: runs on different keys commute, and undisturbed runs that have
    undone everything can be left out together. */
module Commuting {
  import opened Rollback
  import opened Interleaving
  import opened Settling

  // ---- one run's share of a schedule -------------------------------------

  /** The steps of run `r`, in order. */
  function Own(ops: seq<Op>, r: nat): seq<Op>
  {
    if ops == [] then []
    else
      var n := |ops| - 1;
      Own(ops[..n], r) + (if ops[n].run == r then [ops[n]] else [])
  }

  lemma OwnSnoc(ops: seq<Op>, r: nat)
    requires ops != []
    ensures var n := |ops| - 1;
            && (ops[n].run != r ==> Own(ops, r) == Own(ops[..n], r))
            && (ops[n].run == r ==>
                  && Own(ops, r) != [] && Own(ops, r)[..|Own(ops, r)| - 1] == Own(ops[..n], r)
                  && Own(ops, r)[|Own(ops, r)| - 1] == ops[n])
  {
  }

  /** How much a run has left to undo depends on its own steps only. */
  lemma {:induction false} OwnLogLength(data: Data, ops: seq<Op>, r: nat)
    ensures |Log(Exec(data, ops), r)| == |Log(Exec(data, Own(ops, r)), r)|
  {
    hide Exec, Log;
    if ops != [] {
      var n := |ops| - 1;
      OwnLogLength(data, ops[..n], r);
      LogGrows(data, ops, r);
      OwnSnoc(ops, r);
      hide Own;
      if ops[n].run == r {
        LogGrows(data, Own(ops, r), r);
      }
    }
  }

  lemma {:induction false} OwnMembers(ops: seq<Op>, r: nat)
    ensures forall op :: op in Own(ops, r) <==> op in ops && op.run == r
  {
    if ops != [] {
      var n := |ops| - 1;
      OwnMembers(ops[..n], r);
      assert ops == ops[..n] + [ops[n]];
    }
  }

  /** Two worlds agree on a run's log and on some keys. */
  ghost predicate Alike(w: World, v: World, r: nat, keys: set<string>)
  {
    && Log(w, r) == Log(v, r)
    && forall k :: k in keys ==> Entry(w.data, k) == Entry(v.data, k)
  }

  lemma OwnStepStaysAlike(w: World, v: World, op: Op, keys: set<string>)
    requires Alike(w, v, op.run, keys) && (op.Do? ==> KeyOf(op.e) in keys)
    ensures Alike(Step(w, op), Step(v, op), op.run, keys)
  {
    forall k | k in keys
      ensures Entry(Step(w, op).data, k) == Entry(Step(v, op).data, k)
    {
      assert Entry(w.data, k) == Entry(v.data, k);
    }
    if op.Do? {
      assert Entry(w.data, KeyOf(op.e)) == Entry(v.data, KeyOf(op.e));
    }
  }

  lemma OtherStepStaysAlike(w: World, v: World, op: Op, r: nat, keys: set<string>)
    requires Alike(w, v, r, keys) && op.run != r
    requires Writes(w, op).Some? ==> Writes(w, op).value !in keys
    ensures Alike(Step(w, op), v, r, keys)
  {
    OtherLogsStay(w, op, r);
    forall k | k in keys
      ensures Entry(Step(w, op).data, k) == Entry(v.data, k)
    {
      StepFrame(w, op, k);
    }
  }

  lemma NothingTaken(data: Data, r: nat, keys: set<string>)
    ensures Alike(Exec(data, []), Exec(data, Own([], r)), r, keys)
  {
  }

  /** On keys no other run writes, a run in company is the run on its own. */
  lemma {:induction false} OwnKeysFollow(data: Data, ops: seq<Op>, r: nat, keys: set<string>)
    requires Keys(ops, r) <= keys
    requires forall op :: op in ops && op.Do? && op.run != r ==> KeyOf(op.e) !in keys
    ensures Alike(Exec(data, ops), Exec(data, Own(ops, r)), r, keys)
  {
    hide Alike, Step, Own;
    if ops == [] {
      NothingTaken(data, r, keys);
    } else {
      var n := |ops| - 1;
      var init, op := ops[..n], ops[n];
      assert ops == init + [op] && Keys(init, r) <= Keys(ops, r);
      OwnKeysFollow(data, init, r, keys);
      OwnSnoc(ops, r);
      ExecLast(data, ops);
      var w := Exec(data, init);
      if op.run == r {
        assert op.Do? ==> KeyOf(op.e) in Keys(ops, r);
        ExecLast(data, Own(ops, r));
        OwnStepStaysAlike(w, Exec(data, Own(init, r)), op, keys);
      } else {
        LogsStayWithin(data, init, op.run);
        OthersWriteElsewhere(w, init, op, keys);
        OtherStepStaysAlike(w, Exec(data, Own(init, r)), op, r, keys);
      }
    }
  }

  lemma OwnKeys(ops: seq<Op>, ops': seq<Op>, r: nat)
    requires Own(ops, r) == Own(ops', r)
    ensures Keys(ops, r) == Keys(ops', r)
  {
    OwnMembers(ops, r);
    OwnMembers(ops', r);
    assert forall op :: op in ops && op.run == r <==> op in ops' && op.run == r;
  }

  lemma WrittenBySomeone(ops: seq<Op>, k: string) returns (r: nat)
    requires !NeverWritten(ops, k)
    ensures k in Keys(ops, r)
  {
    var op :| op in ops && op.Do? && KeyOf(op.e) == k;
    r := op.run;
  }

  lemma UntouchedEntry(data: Data, ops: seq<Op>, k: string)
    requires NeverWritten(ops, k)
    ensures Entry(Exec(data, ops).data, k) == Entry(data, k)
  {
    NoLastWriteExactly(data, ops, k);
    EntryAfterLastWrite(data, ops, k);
  }

  lemma FollowsAlone(data: Data, ops: seq<Op>, ops': seq<Op>, r: nat)
    requires forall s :: Own(ops, s) == Own(ops', s)
    requires KeysApart(ops, r)
    ensures Keys(ops, r) == Keys(ops', r)
    ensures Alike(Exec(data, ops), Exec(data, Own(ops, r)), r, Keys(ops, r))
    ensures Alike(Exec(data, ops'), Exec(data, Own(ops, r)), r, Keys(ops, r))
  {
    hide Exec, Alike;
    OwnKeys(ops, ops', r);
    OwnKeysFollow(data, ops, r, Keys(ops, r));
    forall op | op in ops' && op.Do? && op.run != r
      ensures KeyOf(op.e) !in Keys(ops, r)
    {
      assert Own(ops, op.run) == Own(ops', op.run);
      OwnMembers(ops, op.run);
      OwnMembers(ops', op.run);
    }
    OwnKeysFollow(data, ops', r, Keys(ops, r));
  }

  lemma AlikeAt(w: World, v: World, u: World, r: nat, keys: set<string>, k: string)
    requires Alike(w, u, r, keys) && Alike(v, u, r, keys)
    ensures Log(w, r) == Log(v, r)
    ensures k in keys ==> Entry(w.data, k) == Entry(v.data, k)
  {
  }

  lemma SameEntryAt(data: Data, ops: seq<Op>, ops': seq<Op>, k: string)
    requires forall r :: Own(ops, r) == Own(ops', r)
    requires forall r :: KeysApart(ops, r)
    ensures Entry(Exec(data, ops).data, k) == Entry(Exec(data, ops').data, k)
  {
    hide Exec, Own, NeverWritten, Keys, Alike, KeysApart, Entry;
    if !NeverWritten(ops, k) {
      var r := WrittenBySomeone(ops, k);
      FollowsAlone(data, ops, ops', r);
      AlikeAt(Exec(data, ops), Exec(data, ops'), Exec(data, Own(ops, r)), r, Keys(ops, r), k);
    } else if !NeverWritten(ops', k) {
      var r := WrittenBySomeone(ops', k);
      FollowsAlone(data, ops, ops', r);
      AlikeAt(Exec(data, ops), Exec(data, ops'), Exec(data, Own(ops, r)), r, Keys(ops, r), k);
    } else {
      UntouchedEntry(data, ops, k);
      UntouchedEntry(data, ops', k);
    }
  }

  /** Runs that write different keys commute: every interleaving of the same
      runs, one after another among them, ends with the same store and leaves
      every run the same to undo. */
  lemma InterleavingsAgree(data: Data, ops: seq<Op>, ops': seq<Op>)
    requires forall r :: Own(ops, r) == Own(ops', r)
    requires forall r :: KeysApart(ops, r)
    ensures Exec(data, ops).data == Exec(data, ops').data
    ensures forall r :: Log(Exec(data, ops), r) == Log(Exec(data, ops'), r)
  {
    hide Exec, Own, Log, Alike, KeysApart, Entry;
    forall r
      ensures Log(Exec(data, ops), r) == Log(Exec(data, ops'), r)
    {
      FollowsAlone(data, ops, ops', r);
      AlikeAt(Exec(data, ops), Exec(data, ops'), Exec(data, Own(ops, r)), r, Keys(ops, r), "");
    }
    forall k
      ensures Entry(Exec(data, ops).data, k) == Entry(Exec(data, ops').data, k)
    {
      SameEntryAt(data, ops, ops', k);
    }
    EqualEntries(Exec(data, ops).data, Exec(data, ops').data);
  }

  lemma OwnOne(ops: seq<Op>, op: Op, s: nat)
    ensures Own(ops + [op], s) == if op.run == s then Own(ops, s) + [op] else Own(ops, s)
  {
    assert (ops + [op])[..|ops|] == ops;
    OwnSnoc(ops + [op], s);
  }

  lemma {:induction false} OwnAppended(ops: seq<Op>, steps: seq<Op>, r: nat, s: nat)
    requires forall op :: op in steps ==> op.run == r
    ensures Own(ops + steps, s) == if s == r then Own(ops, s) + steps else Own(ops, s)
    decreases |steps|
  {
    hide Own;
    if steps == [] {
      assert ops + steps == ops && Own(ops, s) + steps == Own(ops, s);
    } else {
      var before, last := steps[..|steps| - 1], steps[|steps| - 1];
      assert last in steps && steps == before + [last];
      OwnAppended(ops, before, r, s);
      OwnOne(ops + before, last, s);
      assert ops + steps == (ops + before) + [last];
      assert Own(ops, s) + steps == (Own(ops, s) + before) + [last];
    }
  }

  lemma NothingWithout(r: nat)
    ensures Without([], r) == []
  {
  }

  lemma {:induction false} OwnWithout(ops: seq<Op>, r: nat, q: nat)
    requires q != r
    ensures Own(Without(ops, r), q) == Own(ops, q)
  {
    hide Own, Without;
    if ops == [] {
      assert Without([], r) == [] by { NothingWithout(r); }
    } else {
      var n := |ops| - 1;
      OwnWithout(ops[..n], r, q);
      WithoutSnoc(ops, r);
      var before := Without(ops[..n], r);
      OwnAppended(ops[..n], [ops[n]], ops[n].run, q);
      OwnAppended(before, [ops[n]], ops[n].run, q);
      assert ops == ops[..n] + [ops[n]] && before + [] == before;
    }
  }

  lemma WithoutOne(ops: seq<Op>, op: Op, q: nat)
    ensures Without(ops + [op], q) == if op.run == q then Without(ops, q) else Without(ops, q) + [op]
  {
    hide Exec, Step;
    ExecSnoc(map[], ops, op);
  }

  lemma {:induction false} WithoutAppended(ops: seq<Op>, steps: seq<Op>, r: nat, q: nat)
    requires forall op :: op in steps ==> op.run == r
    ensures Without(ops + steps, q) == if r == q then Without(ops, q) else Without(ops, q) + steps
    decreases |steps|
  {
    hide Without;
    if steps == [] {
      assert ops + steps == ops && Without(ops, q) + steps == Without(ops, q);
    } else {
      var before, last := steps[..|steps| - 1], steps[|steps| - 1];
      assert last in steps && steps == before + [last];
      WithoutAppended(ops, before, r, q);
      WithoutOne(ops + before, last, q);
      assert ops + steps == (ops + before) + [last];
      assert Without(ops, q) + steps == (Without(ops, q) + before) + [last];
    }
  }

  lemma SameLogLength(data: Data, ops: seq<Op>, r: nat, q: nat)
    requires q != r
    ensures |Log(Exec(data, Without(ops, r)), q)| == |Log(Exec(data, ops), q)|
  {
    hide Exec, Log, Own, Without;
    OwnWithout(ops, r, q);
    OwnLogLength(data, ops, q);
    OwnLogLength(data, Without(ops, r), q);
  }

  lemma StrangersOwnNothing(ops: seq<Op>, n: nat, r: nat)
    requires (forall op :: op in ops ==> op.run < n) && r >= n
    ensures Own(ops, r) == [] && Keys(ops, r) == {}
  {
    OwnMembers(ops, r);
    if Own(ops, r) != [] {
      assert Own(ops, r)[0] in Own(ops, r);
    }
  }

  // ---- leaving several runs out ------------------------------------------

  lemma UndisturbedSnoc(data: Data, ops: seq<Op>, r: nat)
    requires ops != []
    ensures var n := |ops| - 1;
            var w := Exec(data, ops[..n]);
            Undisturbed(data, ops, r) <==>
            && Undisturbed(data, ops[..n], r)
            && (ops[n].run != r && Writes(w, ops[n]).Some? ==> !Holding(w, r, Writes(w, ops[n]).value))
  {
    var n := |ops| - 1;
    hide Exec, Writes, Holding;
    assert forall i :: 0 <= i < n ==> ops[..n][..i] == ops[..i];
  }

  lemma NobodyDisturbs(data: Data, r: nat, s: nat)
    ensures Undisturbed(data, Without([], r), s)
  {
  }

  lemma OthersLogsAgree(data: Data, ops: seq<Op>, r: nat)
    requires Undisturbed(data, ops, r)
    ensures forall s :: s != r ==> Log(Exec(data, ops), s) == Log(Exec(data, Without(ops, r)), s)
  {
    UndisturbedIsTraceless(data, ops, r);
    assert ops[..|ops|] == ops;
    assert Traceless(data, ops, r);
  }

  /** Leaving out one undisturbed run leaves the others undisturbed. */
  lemma {:induction false} StillUndisturbed(data: Data, ops: seq<Op>, r: nat, s: nat)
    requires r != s && Undisturbed(data, ops, r) && Undisturbed(data, ops, s)
    ensures Undisturbed(data, Without(ops, r), s)
    decreases |ops|
  {
    hide Exec, Log, Without, Undisturbed;
    if ops == [] {
      NobodyDisturbs(data, r, s);
    } else {
      var n := |ops| - 1;
      var init, op := ops[..n], ops[n];
      UndisturbedSnoc(data, ops, r);
      UndisturbedSnoc(data, ops, s);
      StillUndisturbed(data, init, r, s);
      WithoutSnoc(ops, r);
      if op.run != r {
        var rest := Without(init, r);
        assert (rest + [op])[..|rest|] == rest;
        UndisturbedSnoc(data, rest + [op], s);
        OthersLogsAgree(data, init, r);
        assert Log(Exec(data, init), op.run) == Log(Exec(data, rest), op.run);
      } else {
        assert Without(init, r) + [] == Without(init, r);
      }
    }
  }

  function WithoutAll(ops: seq<Op>, gone: seq<nat>): seq<Op>
    decreases |gone|
  {
    if gone == [] then ops else WithoutAll(Without(ops, gone[0]), gone[1..])
  }

  /** Undisturbed runs that have undone everything can be left out together. */
  lemma {:induction false} NoTraceOfAny(data: Data, ops: seq<Op>, gone: seq<nat>)
    requires forall i, j :: 0 <= i < j < |gone| ==> gone[i] != gone[j]
    requires forall r :: r in gone ==> Undisturbed(data, ops, r) && Log(Exec(data, ops), r) == []
    ensures forall k :: Read(Exec(data, ops).data, k) == Read(Exec(data, WithoutAll(ops, gone)).data, k)
    ensures forall s :: s !in gone ==> Log(Exec(data, ops), s) == Log(Exec(data, WithoutAll(ops, gone)), s)
    decreases |gone|
  {
    hide Exec, Log, Undisturbed, Without;
    if gone != [] {
      var r, rest := gone[0], gone[1..];
      RolledBackRunLeavesNoTrace(data, ops, r);
      forall s | s in rest
        ensures Undisturbed(data, Without(ops, r), s) && Log(Exec(data, Without(ops, r)), s) == []
      {
        assert s in gone && s != r;
        StillUndisturbed(data, ops, r, s);
      }
      NoTraceOfAny(data, Without(ops, r), rest);
      assert forall s :: s !in gone ==> s != r && s !in rest;
    }
  }
}
