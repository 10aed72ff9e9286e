/** Side effects on a keyed store, the log of what they overwrote, and undoing
    them in reverse order. */
module Rollback {
  import opened Values

  type Data = map<string, Value>

  datatype Effect = Effect(kind: string, target: string, value: Value)

  /** An applied effect with the value it overwrote; a missing entry is read as `Nil`. */
  datatype EffectRecord = EffectRecord(effect: Effect, prior: Value)

  function Key(kind: string, target: string): string
  {
    kind + ":" + target
  }

  function KeyOf(e: Effect): string { Key(e.kind, e.target) }

  function Read(data: Data, k: string): Value
  {
    if k in data then data[k] else Nil
  }

  function RecordOf(data: Data, e: Effect): EffectRecord
  {
    EffectRecord(e, Read(data, KeyOf(e)))
  }

  function Applied(data: Data, e: Effect): Data
  {
    data[KeyOf(e) := e.value]
  }

  function Undone(data: Data, rec: EffectRecord): Data
  {
    var k := KeyOf(rec.effect);
    if rec.prior.Nil? then data - {k} else data[k := rec.prior]
  }

  // ---- whole runs -------------------------------------------------------

  function ApplyAll(data: Data, es: seq<Effect>): Data
  {
    if es == [] then data else Applied(ApplyAll(data, es[..|es| - 1]), es[|es| - 1])
  }

  /** The records left by applying `es` one after another, starting from `data`. */
  function RecordsOf(data: Data, es: seq<Effect>): (recs: seq<EffectRecord>)
    ensures |recs| == |es|
  {
    if es == [] then []
    else
      var init := es[..|es| - 1];
      RecordsOf(data, init) + [RecordOf(ApplyAll(data, init), es[|es| - 1])]
  }

  /** Undoing the records last to first. */
  function UndoAll(data: Data, recs: seq<EffectRecord>): Data
    decreases |recs|
  {
    if recs == [] then data else UndoAll(Undone(data, recs[|recs| - 1]), recs[..|recs| - 1])
  }

  function Reverse<T>(s: seq<T>): seq<T>
  {
    if s == [] then [] else [s[|s| - 1]] + Reverse(s[..|s| - 1])
  }

  function KeySet(es: seq<Effect>): set<string>
  {
    set e | e in es :: KeyOf(e)
  }

  /** `data` without those of its entries at `keys` that hold `Nil`. */
  function Settled(data: Data, keys: set<string>): Data
  {
    map k | k in data && !(k in keys && data[k].Nil?) :: data[k]
  }

  // ---- the objects ------------------------------------------------------

  class MemorySideEffectStore {
    var data: Data
    var undoLog: seq<EffectRecord>

    constructor ()
      ensures data == map[] && undoLog == []
    {
      data, undoLog := map[], [];
    }

    method Apply(e: Effect) returns (rec: EffectRecord)
      modifies this
      ensures rec == RecordOf(old(data), e)
      ensures data == Applied(old(data), e) && undoLog == old(undoLog)
    {
      var k := Key(e.kind, e.target);
      rec := EffectRecord(e, if k in data then data[k] else Nil);
      data := data[k := e.value];
    }

    method Undo(rec: EffectRecord)
      modifies this
      ensures data == Undone(old(data), rec) && undoLog == old(undoLog) + [rec]
    {
      var k := Key(rec.effect.kind, rec.effect.target);
      if rec.prior == Nil {
        data := data - {k};
      } else {
        data := data[k := rec.prior];
      }
      undoLog := undoLog + [rec];
    }

    function Value(kind: string, target: string): Option<Value>
      reads this
    {
      if Key(kind, target) in data then Some(data[Key(kind, target)]) else None
    }
  }

  class RollbackLog {
    const store: MemorySideEffectStore
    var records: seq<EffectRecord>

    constructor (store: MemorySideEffectStore)
      ensures this.store == store && records == []
    {
      this.store, records := store, [];
    }

    method Apply(e: Effect)
      modifies this, store
      ensures records == old(records) + [RecordOf(old(store.data), e)]
      ensures store.data == Applied(old(store.data), e) && store.undoLog == old(store.undoLog)
    {
      var rec := store.Apply(e);
      records := records + [rec];
    }

    method Rollback()
      modifies this, store
      ensures records == []
      ensures store.data == UndoAll(old(store.data), old(records))
      ensures store.undoLog == old(store.undoLog) + Reverse(old(records))
    {
      var i := |records|;
      assert records[..i] == records;
      while i > 0
        invariant 0 <= i <= |records| && records == old(records)
        invariant UndoAll(store.data, records[..i]) == UndoAll(old(store.data), old(records))
        invariant store.undoLog + Reverse(records[..i]) == old(store.undoLog) + Reverse(old(records))
      {
        i := i - 1;
        assert records[..i + 1][..i] == records[..i];
        store.Undo(records[i]);
      }
      records := [];
    }
  }

  // ---- undoing restores -------------------------------------------------

  /** What the first record at key `k` remembers. */
  function FirstPrior(recs: seq<EffectRecord>, k: string): Option<Value>
  {
    if recs == [] then None
    else
      var earlier := FirstPrior(recs[..|recs| - 1], k);
      if earlier.Some? then earlier
      else if KeyOf(recs[|recs| - 1].effect) == k then Some(recs[|recs| - 1].prior)
      else None
  }

  /** The entry at one key, if there is one. */
  function Entry(data: Data, k: string): Option<Value>
  {
    if k in data then Some(data[k]) else None
  }

  /** Undoing leaves at each key what the first record there remembers, with
      `Nil` meaning no entry, and leaves keys without records alone. */
  lemma {:induction false} UndoAllAt(data: Data, recs: seq<EffectRecord>, k: string)
    ensures Entry(UndoAll(data, recs), k) ==
            match FirstPrior(recs, k)
            case None => Entry(data, k)
            case Some(v) => if v.Nil? then None else Some(v)
    decreases |recs|
  {
    if recs != [] {
      UndoAllAt(Undone(data, recs[|recs| - 1]), recs[..|recs| - 1], k);
    }
  }

  lemma {:induction false} FirstPriorOfRun(data: Data, es: seq<Effect>, k: string)
    ensures FirstPrior(RecordsOf(data, es), k) == if k in KeySet(es) then Some(Read(data, k)) else None
    ensures k !in KeySet(es) ==> Entry(ApplyAll(data, es), k) == Entry(data, k)
  {
    if es != [] {
      var init, last := es[..|es| - 1], es[|es| - 1];
      FirstPriorOfRun(data, init, k);
      assert RecordsOf(data, es)[..|es| - 1] == RecordsOf(data, init);
      assert es == init + [last];
      assert k in KeySet(es) <==> k in KeySet(init) || k == KeyOf(last);
    }
  }

  lemma EqualEntries(a: Data, b: Data)
    requires forall k :: Entry(a, k) == Entry(b, k)
    ensures a == b
  {
    assert forall k :: k in a <==> Entry(a, k).Some?;
    forall k | k in a
      ensures k in b && a[k] == b[k]
    {
      assert Entry(a, k) == Entry(b, k);
    }
    forall k | k in b
      ensures k in a
    {
      assert Entry(a, k) == Entry(b, k);
    }
  }

  /** Undoing a whole run gives back the initial data, except that entries the
      run touched that held `Nil` are gone. */
  lemma RollbackRestores(data: Data, es: seq<Effect>)
    ensures UndoAll(ApplyAll(data, es), RecordsOf(data, es)) == Settled(data, KeySet(es))
  {
    var final := UndoAll(ApplyAll(data, es), RecordsOf(data, es));
    forall k
      ensures Entry(final, k) == Entry(Settled(data, KeySet(es)), k)
    {
      UndoAllAt(ApplyAll(data, es), RecordsOf(data, es), k);
      FirstPriorOfRun(data, es, k);
    }
    EqualEntries(final, Settled(data, KeySet(es)));
  }

  /** Read with absent as `Nil`, a rolled-back run leaves every key unchanged; it
      leaves the store itself unchanged exactly when it touched no entry that
      held `Nil` to begin with. */
  lemma RollbackIsInvisible(data: Data, es: seq<Effect>)
    ensures forall k :: Read(UndoAll(ApplyAll(data, es), RecordsOf(data, es)), k) == Read(data, k)
    ensures UndoAll(ApplyAll(data, es), RecordsOf(data, es)) == data <==>
            forall k :: k in KeySet(es) && k in data ==> !data[k].Nil?
  {
    RollbackRestores(data, es);
    var keys := KeySet(es);
    if Settled(data, keys) == data {
      forall k | k in keys && k in data
        ensures !data[k].Nil?
      {
        assert k in Settled(data, keys);
      }
    }
  }

  /** A run that only writes once to an entry holding `Nil`, then rolls back,
      loses that entry. */
  lemma RollbackDropsNilEntry(kind: string, target: string, v: Value)
    ensures var data := map[Key(kind, target) := Nil];
            var es := [Effect(kind, target, v)];
            UndoAll(ApplyAll(data, es), RecordsOf(data, es)) == map[]
  {
    var data := map[Key(kind, target) := Nil];
    RollbackRestores(data, [Effect(kind, target, v)]);
    assert Effect(kind, target, v) in [Effect(kind, target, v)];
  }

  // ---- keys -------------------------------------------------------------

  lemma {:induction false} KeyInjective(k1: string, t1: string, k2: string, t2: string)
    requires ':' !in k1 && ':' !in k2 && Key(k1, t1) == Key(k2, t2)
    ensures k1 == k2 && t1 == t2
    decreases |k1|
  {
    var a, b := Key(k1, t1), Key(k2, t2);
    assert if k1 == "" then a[0] == ':' else a[0] == k1[0] && k1[0] in k1;
    assert if k2 == "" then b[0] == ':' else b[0] == k2[0] && k2[0] in k2;
    if k1 == "" {
      assert a[1..] == t1 && b[1..] == t2;
    } else {
      assert a[1..] == Key(k1[1..], t1) && b[1..] == Key(k2[1..], t2);
      KeyInjective(k1[1..], t1, k2[1..], t2);
      assert k1 == [k1[0]] + k1[1..] && k2 == [k2[0]] + k2[1..];
    }
  }

  const KINDS := {"database", "modbus", "file", "http", "mcp_tool"}

  /** Effects of the five kinds share a cell only if kind and target agree. */
  lemma CellsAreSeparate(a: Effect, b: Effect)
    requires a.kind in KINDS && b.kind in KINDS && KeyOf(a) == KeyOf(b)
    ensures a.kind == b.kind && a.target == b.target
  {
    KeyInjective(a.kind, a.target, b.kind, b.target);
  }
}
