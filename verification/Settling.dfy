/** How interleaved runs on one store end once every one of them has undone what
    it did. Undo records hold what a key read when they were made, so runs that
    cross on a key can leave a rolled-back write behind for good. */
module Settling {
  import opened Values
  import opened Rollback
  import opened Interleaving

  // ---- where a record was made -------------------------------------------

  /** The positions of run `r`'s effects not yet undone, oldest first. */
  function Outstanding(ops: seq<Op>, r: nat): seq<nat>
  {
    if ops == [] then []
    else
      var n := |ops| - 1;
      var before := Outstanding(ops[..n], r);
      if ops[n].run != r then before
      else if ops[n].Do? then before + [n]
      else if before == [] then before
      else before[..|before| - 1]
  }

  /** The step at `j` made this record: it remembers what its key read then. */
  predicate RecordedAt(data: Data, ops: seq<Op>, j: nat, r: nat, rec: EffectRecord)
  {
    && j < |ops| && ops[j] == Do(r, rec.effect)
    && rec.prior == Read(Exec(data, ops[..j]).data, KeyOf(rec.effect))
  }

  lemma RecordedInPrefix(data: Data, ops: seq<Op>, n: nat, j: nat, r: nat, rec: EffectRecord)
    requires n <= |ops| && RecordedAt(data, ops[..n], j, r, rec)
    ensures RecordedAt(data, ops, j, r, rec)
  {
    assert ops[..n][..j] == ops[..j];
  }

  lemma LogGrows(data: Data, ops: seq<Op>, r: nat)
    requires ops != []
    ensures var n := |ops| - 1;
            var w, recs := Exec(data, ops[..n]), Log(Exec(data, ops[..n]), r);
            Log(Exec(data, ops), r) ==
              if ops[n].run != r then recs
              else if ops[n].Do? then recs + [RecordOf(w.data, ops[n].e)]
              else if recs == [] then recs
              else recs[..|recs| - 1]
  {
  }

  lemma NothingLogged(data: Data, r: nat)
    ensures Log(Exec(data, []), r) == []
  {
  }

  /** The log holds one record for each outstanding effect, in the same order. */
  lemma {:induction false} OutstandingMatches(data: Data, ops: seq<Op>, r: nat)
    ensures |Outstanding(ops, r)| == |Log(Exec(data, ops), r)|
    ensures forall m :: 0 <= m < |Outstanding(ops, r)| ==>
              RecordedAt(data, ops, Outstanding(ops, r)[m], r, Log(Exec(data, ops), r)[m])
  {
    hide Exec, Log;
    if ops == [] {
      NothingLogged(data, r);
    } else {
      var n := |ops| - 1;
      var init := ops[..n];
      OutstandingMatches(data, init, r);
      LogGrows(data, ops, r);
      var places, recs := Outstanding(init, r), Log(Exec(data, init), r);
      forall m | 0 <= m < |Outstanding(ops, r)|
        ensures RecordedAt(data, ops, Outstanding(ops, r)[m], r, Log(Exec(data, ops), r)[m])
      {
        if m < |places| {
          assert Outstanding(ops, r)[m] == places[m] && Log(Exec(data, ops), r)[m] == recs[m];
          RecordedInPrefix(data, ops, n, places[m], r, recs[m]);
        }
      }
    }
  }

  // ---- the last step that writes a key -----------------------------------

  function LastWrite(data: Data, ops: seq<Op>, k: string): (i: Option<nat>)
    ensures i.Some? ==> i.value < |ops|
  {
    if ops == [] then None
    else
      var n := |ops| - 1;
      if Writes(Exec(data, ops[..n]), ops[n]) == Some(k) then Some(n) else LastWrite(data, ops[..n], k)
  }

  lemma ExecLast(data: Data, ops: seq<Op>)
    requires ops != []
    ensures Exec(data, ops) == Step(Exec(data, ops[..|ops| - 1]), ops[|ops| - 1])
  {
  }

  lemma EntryUnwritten(data: Data, ops: seq<Op>, k: string)
    requires ops != [] && Writes(Exec(data, ops[..|ops| - 1]), ops[|ops| - 1]) != Some(k)
    ensures Entry(Exec(data, ops).data, k) == Entry(Exec(data, ops[..|ops| - 1]).data, k)
  {
    hide Writes, Step, Entry;
    ExecLast(data, ops);
    StepFrame(Exec(data, ops[..|ops| - 1]), ops[|ops| - 1], k);
  }

  lemma PrefixOfPrefix(ops: seq<Op>, n: nat, i: nat)
    requires i < n <= |ops|
    ensures ops[..n][..i] == ops[..i] && ops[..n][i] == ops[i] && ops[..n][..i + 1] == ops[..i + 1]
  {
  }

  /** After its last write a key keeps its entry. */
  lemma {:induction false} EntryAfterLastWrite(data: Data, ops: seq<Op>, k: string)
    ensures match LastWrite(data, ops, k)
            case None => Entry(Exec(data, ops).data, k) == Entry(data, k)
            case Some(i) =>
              && Writes(Exec(data, ops[..i]), ops[i]) == Some(k)
              && Entry(Exec(data, ops).data, k) == Entry(Exec(data, ops[..i + 1]).data, k)
  {
    if ops != [] {
      hide Exec, Writes, Entry;
      var n := |ops| - 1;
      if Writes(Exec(data, ops[..n]), ops[n]) == Some(k) {
        assert ops[..n + 1] == ops;
      } else {
        EntryAfterLastWrite(data, ops[..n], k);
        EntryUnwritten(data, ops, k);
        var last := LastWrite(data, ops[..n], k);
        if last.Some? {
          PrefixOfPrefix(ops, n, last.value);
        }
      }
    }
  }

  predicate NeverWritten(ops: seq<Op>, k: string)
  {
    forall op :: op in ops && op.Do? ==> KeyOf(op.e) != k
  }

  lemma RecordedWithin(data: Data, ops: seq<Op>, j: nat, r: nat, rec: EffectRecord)
    requires RecordedAt(data, ops, j, r, rec)
    ensures j < |ops|
  {
  }

  /** The record a run would undo next was made where its latest outstanding
      effect was applied. */
  lemma TopRecord(data: Data, ops: seq<Op>, i: nat, r: nat)
    requires i <= |ops|
    ensures var places, recs := Outstanding(ops[..i], r), Log(Exec(data, ops[..i]), r);
            && (places == [] <==> recs == [])
            && (places != [] ==>
                  var j, rec := places[|places| - 1], recs[|recs| - 1];
                  j < i && RecordedAt(data, ops, j, r, rec))
  {
    hide Exec, Log, Outstanding, RecordedAt;
    OutstandingMatches(data, ops[..i], r);
    var places, recs := Outstanding(ops[..i], r), Log(Exec(data, ops[..i]), r);
    if places != [] {
      var j, rec := places[|places| - 1], recs[|recs| - 1];
      assert RecordedAt(data, ops[..i], j, r, rec);
      RecordedInPrefix(data, ops, i, j, r, rec);
      RecordedWithin(data, ops[..i], j, r, rec);
    }
  }

  lemma UndoReads(w: World, r: nat)
    requires Log(w, r) != []
    ensures var rec := Log(w, r)[|Log(w, r)| - 1];
            Read(Step(w, Undo(r)).data, KeyOf(rec.effect)) == rec.prior
  {
    hide KeyOf;
  }

  /** A step that writes a key is an effect on it or undoes one. */
  lemma WriterOf(data: Data, ops: seq<Op>, i: nat, k: string)
    requires i < |ops| && Writes(Exec(data, ops[..i]), ops[i]) == Some(k)
    ensures ops[i].Undo? ==>
              var places := Outstanding(ops[..i], ops[i].run);
              && places != [] && places[|places| - 1] < i
              && var j := places[|places| - 1];
                 && ops[j].Do? && KeyOf(ops[j].e) == k
                 && Read(Exec(data, ops[..i + 1]).data, k) == Read(Exec(data, ops[..j]).data, k)
  {
    if ops[i].Undo? {
      hide Exec, Outstanding, Step, Log, KeyOf;
      var r := ops[i].run;
      TopRecord(data, ops, i, r);
      UndoReads(Exec(data, ops[..i]), r);
      assert ops[..i + 1][..i] == ops[..i];
      ExecLast(data, ops[..i + 1]);
    }
  }

  /** A key without a writing step was never written, and the other way round. */
  lemma {:induction false} NoLastWriteExactly(data: Data, ops: seq<Op>, k: string)
    ensures LastWrite(data, ops, k).None? <==> NeverWritten(ops, k)
  {
    hide Exec, Outstanding;
    if ops != [] {
      var n := |ops| - 1;
      NoLastWriteExactly(data, ops[..n], k);
      assert ops == ops[..n] + [ops[n]];
      if Writes(Exec(data, ops[..n]), ops[n]) == Some(k) && ops[n].Undo? {
        WriterOf(data, ops, n, k);
        var places := Outstanding(ops[..n], ops[n].run);
        assert ops[places[|places| - 1]] in ops;
      }
    }
  }

  /** An undo step that does not write `k` undoes an effect on another key. */
  lemma TopIsElsewhere(data: Data, ops: seq<Op>, n: nat, k: string)
    requires n < |ops| && ops[n].Undo? && Writes(Exec(data, ops[..n]), ops[n]) != Some(k)
    requires Outstanding(ops[..n], ops[n].run) != []
    ensures var places := Outstanding(ops[..n], ops[n].run);
            var j := places[|places| - 1];
            j < n && ops[j].Do? && KeyOf(ops[j].e) != k
  {
    hide Exec, Outstanding, Log, KeyOf;
    TopRecord(data, ops, n, ops[n].run);
  }

  lemma LastWriteWrites(data: Data, ops: seq<Op>, k: string)
    requires LastWrite(data, ops, k).Some?
    ensures var op := ops[LastWrite(data, ops, k).value]; op.Do? ==> KeyOf(op.e) == k
  {
    hide Exec;
    EntryAfterLastWrite(data, ops, k);
  }

  lemma OutstandingGrows(ops: seq<Op>, r: nat, i: nat)
    requires ops != [] && i in Outstanding(ops[..|ops| - 1], r)
    requires ops[|ops| - 1] == Undo(r) ==>
               var places := Outstanding(ops[..|ops| - 1], r); places[|places| - 1] != i
    ensures i in Outstanding(ops, r)
  {
    var n := |ops| - 1;
    var places := Outstanding(ops[..n], r);
    var m :| 0 <= m < |places| && places[m] == i;
    if ops[n] == Undo(r) {
      assert places[..|places| - 1][m] == i;
    } else if ops[n].run == r {
      assert (places + [n])[m] == i;
    }
  }

  /** An effect that is the last write of its key has not been undone. */
  lemma {:induction false} LastDoIsOutstanding(data: Data, ops: seq<Op>, k: string)
    requires LastWrite(data, ops, k).Some? && ops[LastWrite(data, ops, k).value].Do?
    ensures var i := LastWrite(data, ops, k).value; i in Outstanding(ops, ops[i].run)
    decreases |ops|
  {
    hide Exec, Writes;
    var n := |ops| - 1;
    var i := LastWrite(data, ops, k).value;
    if i < n {
      LastDoIsOutstanding(data, ops[..n], k);
      hide Outstanding;
      var r := ops[i].run;
      assert KeyOf(ops[i].e) == k by {
        LastWriteWrites(data, ops, k);
      }
      if ops[n] == Undo(r) {
        TopIsElsewhere(data, ops, n, k);
      }
      OutstandingGrows(ops, r, i);
    } else {
      var places := Outstanding(ops[..n], ops[n].run);
      assert (places + [n])[|places|] == n;
    }
  }

  // ---- how a schedule ends -----------------------------------------------

  /** Every run has undone everything. */
  ghost predicate AllUndone(data: Data, ops: seq<Op>)
  {
    forall r :: Log(Exec(data, ops), r) == []
  }

  /** Where the effect that the undo step at `i` undoes was applied. */
  function UndoneEffect(ops: seq<Op>, i: nat): (j: nat)
    requires i < |ops| && ops[i].Undo? && Outstanding(ops[..i], ops[i].run) != []
  {
    var places := Outstanding(ops[..i], ops[i].run);
    places[|places| - 1]
  }

  /** The last write to a key is an undo, and the effect it undoes was applied
      when the key read what it read at the start. */
  predicate LastUndoRestores(data: Data, ops: seq<Op>, k: string)
  {
    var last := LastWrite(data, ops, k);
    && last.Some? && ops[last.value].Undo? && Outstanding(ops[..last.value], ops[last.value].run) != []
    && var j := UndoneEffect(ops, last.value);
       j < |ops| && Read(Exec(data, ops[..j]).data, k) == Read(data, k)
  }

  lemma LastWriterUndoes(data: Data, ops: seq<Op>, k: string)
    requires AllUndone(data, ops) && LastWrite(data, ops, k).Some?
    ensures ops[LastWrite(data, ops, k).value].Undo?
  {
    hide Exec, Log, Outstanding, LastWrite;
    var i := LastWrite(data, ops, k).value;
    if ops[i].Do? {
      LastDoIsOutstanding(data, ops, k);
      OutstandingMatches(data, ops, ops[i].run);
      assert false;
    }
  }

  /** How a schedule ends, exactly: once every run has undone everything, a key
      reads as at the start if and only if no run wrote it, or the effect undone
      last on it was applied when it read its starting value. */
  lemma SettledKeyExactly(data: Data, ops: seq<Op>, k: string)
    requires AllUndone(data, ops)
    ensures Read(Exec(data, ops).data, k) == Read(data, k) <==>
            NeverWritten(ops, k) || LastUndoRestores(data, ops, k)
    ensures !NeverWritten(ops, k) ==>
              LastWrite(data, ops, k).Some? && ops[LastWrite(data, ops, k).value].Undo?
  {
    hide Exec, Log, Outstanding, LastWrite, Writes;
    NoLastWriteExactly(data, ops, k);
    EntryAfterLastWrite(data, ops, k);
    if !NeverWritten(ops, k) {
      LastWriterUndoes(data, ops, k);
      WriterOf(data, ops, LastWrite(data, ops, k).value, k);
    }
  }

  // ---- runs that cross ---------------------------------------------------

  lemma ExecFour(data: Data, x: Op, y: Op, z: Op, u: Op)
    ensures Exec(data, [x, y, z, u]) == Step(Step(Step(Step(World(data, map[]), x), y), z), u)
  {
    hide Step;
    var w0 := World(data, map[]);
    assert Exec(data, []) == w0;
    ExecSnoc(data, [], x);
    assert [] + [x] == [x];
    ExecSnoc(data, [x], y);
    assert [x] + [y] == [x, y];
    ExecSnoc(data, [x, y], z);
    assert [x, y] + [z] == [x, y, z];
    ExecSnoc(data, [x, y, z], u);
    assert [x, y, z] + [u] == [x, y, z, u];
  }

  lemma ExecTwo(data: Data, x: Op, y: Op)
    ensures Exec(data, [x, y]) == Step(Step(World(data, map[]), x), y)
  {
    hide Step;
    assert Exec(data, []) == World(data, map[]);
    ExecSnoc(data, [], x);
    assert [] + [x] == [x];
    ExecSnoc(data, [x], y);
    assert [x] + [y] == [x, y];
  }

  lemma WithoutTwoOfFour(x: Op, y: Op, z: Op, u: Op)
    requires x.run == z.run && y.run != x.run && u.run != x.run
    ensures Without([x, y, z, u], x.run) == [y, u]
  {
    var r := x.run;
    assert [x, y, z, u][..3] == [x, y, z] && [x, y, z][..2] == [x, y] && [x, y][..1] == [x] && [x][..0] == [];
    assert Without([x], r) == [];
    assert Without([x, y], r) == [y];
    assert Without([x, y, z], r) == [y];
  }

  lemma CrossingLogs(data: Data, a: Effect, b: Effect)
    requires KeyOf(a) == KeyOf(b)
    ensures var w := Step(Step(World(data, map[]), Do(0, a)), Do(1, b));
            && Log(w, 0) == [RecordOf(data, a)] && Log(w, 1) == [EffectRecord(b, a.value)]
            && forall r :: r != 0 && r != 1 ==> Log(w, r) == []
  {
    hide KeyOf;
  }

  lemma UndoBoth(w: World, a: EffectRecord, b: EffectRecord)
    requires Log(w, 0) == [a] && Log(w, 1) == [b] && forall r :: r != 0 && r != 1 ==> Log(w, r) == []
    ensures var t := Step(Step(w, Undo(0)), Undo(1));
            (forall r :: Log(t, r) == []) && Read(t.data, KeyOf(b.effect)) == b.prior
  {
    hide KeyOf;
    var v := Step(w, Undo(0));
    assert [a][..0] == [] && [b][..0] == [];
    var t := Step(v, Undo(1));
    assert Log(v, 0) == [] && Log(v, 1) == [b];
    forall r
      ensures Log(t, r) == []
    {
      if r != 0 {
        OtherLogsStay(w, Undo(0), r);
      }
      if r != 1 {
        OtherLogsStay(v, Undo(1), r);
      }
    }
  }

  lemma DoneAndUndone(w: World, e: Effect)
    requires w.logs == map[]
    ensures Read(Step(Step(w, Do(1, e)), Undo(1)).data, KeyOf(e)) == Read(w.data, KeyOf(e))
  {
    hide KeyOf;
    var rec := RecordOf(w.data, e);
    assert Log(Step(w, Do(1, e)), 1) == [rec];
  }

  /** Two runs cross on a key: the first to write it rolls back first. Both have
      undone everything, and the key ends with what the first run wrote and took
      back, although without that run it ends as it started. */
  lemma CrossingRunsResurrect(data: Data, a: Effect, b: Effect)
    requires KeyOf(a) == KeyOf(b)
    ensures var ops := [Do(0, a), Do(1, b), Undo(0), Undo(1)];
            && AllUndone(data, ops)
            && Read(Exec(data, ops).data, KeyOf(a)) == a.value
            && Read(Exec(data, Without(ops, 0)).data, KeyOf(a)) == Read(data, KeyOf(a))
  {
    hide KeyOf, Step, Log, Exec, Without;
    ExecFour(data, Do(0, a), Do(1, b), Undo(0), Undo(1));
    CrossingLogs(data, a, b);
    UndoBoth(Step(Step(World(data, map[]), Do(0, a)), Do(1, b)), RecordOf(data, a), EffectRecord(b, a.value));
    WithoutTwoOfFour(Do(0, a), Do(1, b), Undo(0), Undo(1));
    ExecTwo(data, Do(1, b), Undo(1));
    DoneAndUndone(World(data, map[]), b);
  }

  lemma {:induction false} QuietTail(data: Data, base: seq<Op>, post: seq<Op>, k: string)
    requires forall j :: 0 <= j < |post| ==> Writes(Exec(data, base + post[..j]), post[j]) != Some(k)
    ensures Entry(Exec(data, base + post).data, k) == Entry(Exec(data, base).data, k)
    decreases |post|
  {
    hide Exec, Writes, Step;
    if post == [] {
      assert base + post == base;
    } else {
      var n := |post| - 1;
      assert forall j :: 0 <= j < n ==> post[..n][..j] == post[..j];
      QuietTail(data, base, post[..n], k);
      assert base + post == (base + post[..n]) + [post[n]];
      ExecSnoc(data, base + post[..n], post[n]);
      StepFrame(Exec(data, base + post[..n]), post[n], k);
    }
  }

  /** The order that is safe: if one run takes hold of a key before any other
      writes it and nobody writes it after that run lets go, the key ends as it
      started, whatever the runs in between did. */
  lemma FirstTakenLastReleased(data: Data, pre: seq<Op>, mid: seq<Op>, post: seq<Op>, r: nat, k: string)
    requires NeverWritten(pre, k) && Overlap(data, pre, mid, r, k)
    requires forall j :: 0 <= j < |post| ==> Writes(Exec(data, pre + mid + post[..j]), post[j]) != Some(k)
    ensures Read(Exec(data, pre + mid + post).data, k) == Read(data, k)
  {
    hide Exec, Overlap, Writes;
    QuietTail(data, pre + mid, post, k);
    HeldKeyIsRestored(data, pre, mid, r, k);
    NoLastWriteExactly(data, pre, k);
    EntryAfterLastWrite(data, pre, k);
  }
}
