/**
 The SQLite store: the tables as mutable fields, one method per operation. Each contract says which step of
 the store it is, and the law of the operation apart from how it is carried out.
 */
module StorageSqlite {
  import opened Common
  import opened Bytes
  import opened Storage
  import opened StorageRuns
  import opened StorageLaws

  class FunctionStorageSqlite {
    var state: map<RowKey, Bytes>
    var log: seq<LogRow>
    var lastLogId: int
    var queue: seq<Job>
    var lastJobId: int
    var counters: map<RowKey, int>

    ghost function Contents(): Tables
      reads this
    {
      Tables(state, log, lastLogId, queue, lastJobId, counters)
    }

    constructor ()
      ensures Contents() == NO_TABLES && Valid(Contents())
    {
      state, log, lastLogId, queue, lastJobId, counters := map[], [], 0, [], 0, map[];
    }

    /** Inserts one row per item. */
    method QueuePush(execution: Bytes, items: seq<Bytes>) returns (count: int)
      requires Valid(Contents())
      modifies this`queue, this`lastJobId
      ensures (Contents(), Count(count)) == Step(old(Contents()), Op.QueuePush(execution, items))
      ensures Valid(Contents())
      ensures forall e :: QueueOf(queue, e) == QueueOf(old(queue), e) + if e == execution then items else []
    {
      ghost var before := Contents();
      ghost var after := Step(before, Op.QueuePush(execution, items)).0;
      StepKeepsValid(before, Op.QueuePush(execution, items));
      forall e ensures QueueOf(after.queue, e) == QueueOf(before.queue, e) + if e == execution then items else [] {
        QueuesAreSeparate(before, Op.QueuePush(execution, items), e);
      }
      hide QueueOf, Valid;
      for i := 0 to |items|
        invariant queue == Pushed(old(queue), old(lastJobId), execution, items[..i])
        invariant lastJobId == old(lastJobId) + i
      {
        queue := queue + [Row(lastJobId + 1, execution, items[i])];
        lastJobId := lastJobId + 1;
      }
      assert items[..|items|] == items;
      count := |items|;
    }

    /** Claims the execution's row of least id. */
    method QueuePop(execution: Bytes) returns (item: Option<Bytes>)
      requires Valid(Contents())
      modifies this`queue
      ensures (Contents(), Item(item)) == Step(old(Contents()), Op.QueuePop(execution))
      ensures Valid(Contents())
      ensures PopLaw(old(queue), queue, execution, item)
    {
      PopObeysLaw(Contents(), execution);
      StepKeepsValid(Contents(), Op.QueuePop(execution));
      hide PopLaw, Valid;
      match OldestJob(queue, execution)
      case None =>
        item := None;
      case Some(i) =>
        item := Some(queue[i].value);
        queue := queue[..i] + queue[i + 1..];
    }

    method QueueClear(execution: Bytes) returns (count: int)
      requires Valid(Contents())
      modifies this`queue
      ensures (Contents(), Count(count)) == Step(old(Contents()), Op.QueueClear(execution))
      ensures Valid(Contents())
      ensures QueueClearLaw(old(queue), queue, execution, count)
    {
      QueueClearObeysLaw(Contents(), execution);
      StepKeepsValid(Contents(), Op.QueueClear(execution));
      hide QueueClearLaw, Valid, Where;
      var kept := Where(queue, NotOf(execution));
      count := |queue| - |kept|;
      queue := kept;
    }

    /** One query for the rows of the keys, then one answer per key asked for, in order. */
    method StateGetMany(scope: Bytes, ns: Bytes, keys: seq<Bytes>) returns (values: seq<Option<Bytes>>)
      ensures (Contents(), Values(values)) == Step(Contents(), GetMany(scope, ns, keys))
      ensures |values| == |keys|
      ensures forall j :: 0 <= j < |keys| ==>
                var at := RowKey(scope, ns, keys[j]);
                values[j] == if at in state then Some(state[at]) else None
    {
      if keys == [] {
        values := [];
        assert values == Step(Contents(), GetMany(scope, ns, keys)).1.values;
        return;
      }
      var found := map at <- state.Keys | at.scope == scope && at.ns == ns && at.key in keys :: at.key := state[at];
      values := [];
      for i := 0 to |keys|
        invariant |values| == i
        invariant forall j :: 0 <= j < i ==> values[j] == GetOf(state, RowKey(scope, ns, keys[j]))
      {
        var key := keys[i];
        assert RowKey(scope, ns, key) in state <==> key in found;
        values := values + [if key in found then Some(found[key]) else None];
      }
      assert values == Step(Contents(), GetMany(scope, ns, keys)).1.values;
    }

    /** Upserts item by item. */
    method StatePutMany(scope: Bytes, ns: Bytes, items: seq<Pair>)
      modifies this`state
      ensures (Contents(), Done) == Step(old(Contents()), PutMany(scope, ns, items))
      ensures forall at :: PutLaw(old(state), state, scope, ns, items, at)
    {
      forall at ensures PutLaw(old(state), PutAll(old(state), scope, ns, items), scope, ns, items, at) {
        PutStores(old(state), scope, ns, items, at);
      }
      hide PutLaw;
      for i := 0 to |items|
        invariant state == PutAll(old(state), scope, ns, items[..i])
      {
        state := state[RowKey(scope, ns, items[i].key) := items[i].value];
        assert items[..i + 1][..i] == items[..i];
      }
      assert items[..|items|] == items;
    }

    method StateScan(scope: Bytes, ns: Bytes, range: Range, reverse: bool, limit: Option<int>)
      returns (pairs: seq<Pair>)
      ensures (Contents(), Pairs(pairs)) == Step(Contents(), Scan(scope, ns, range, reverse, limit))
      ensures OrderedRange(state, scope, ns, range, reverse, limit, pairs)
    {
      ScanIsOrderedRange(state, scope, ns, range, reverse, limit);
      hide OrderedRange, ScanOf;
      pairs := ScanOf(state, scope, ns, range, reverse, limit);
    }

    method StateDrain(scope: Bytes, ns: Bytes) returns (taken: map<Bytes, Bytes>)
      modifies this`state
      ensures (Contents(), Taken(taken)) == Step(old(Contents()), Drain(scope, ns))
      ensures forall at :: DrainLaw(old(state), state, scope, ns, taken, at)
    {
      ghost var t := Contents();
      ghost var (drained, reply) := Step(t, Drain(scope, ns));
      forall at ensures reply.Taken? && DrainLaw(t.state, drained.state, scope, ns, reply.taken, at) {
        DrainConserves(t, scope, ns, at);
      }
      hide DrainLaw;
      taken := Namespace(state, scope, ns);
      state := map at <- state.Keys | !(at.scope == scope && at.ns == ns) :: state[at];
    }

    method StateDelete(scope: Bytes, ns: Bytes, only: Option<seq<Bytes>>, range: Range) returns (count: Option<int>)
      modifies this`state
      ensures (Contents(), if count.None? then Invalid else Count(count.value))
              == Step(old(Contents()), Delete(scope, ns, only, range))
      ensures forall at :: DeleteLaw(old(state), state, scope, ns, only, range, count, at)
    {
      ghost var t := Contents();
      ghost var (after, reply) := Step(t, Delete(scope, ns, only, range));
      ghost var removed := if reply.Count? then Some(reply.count) else None;
      forall at ensures DeleteLaw(t.state, after.state, scope, ns, only, range, removed, at) {
        DeleteRemovesExactly(t, scope, ns, only, range, at);
      }
      hide DeleteLaw;
      if only.Some? && (range.start.Some? || range.end.Some?) {
        return None;
      }
      var kept := map at <- state.Keys | !Deletes(scope, ns, only, range, at) :: state[at];
      if only == Some([]) {
        assert kept == state;
        return Some(0);
      }
      count := Some(|state| - |kept|);
      state := kept;
    }

    /** Three deletes, one per table; the work queue is left alone. */
    method ExecutionClear(scope: Bytes) returns (count: int)
      requires Valid(Contents())
      modifies this`state, this`log, this`counters
      ensures (Contents(), Count(count)) == Step(old(Contents()), ClearScope(scope))
      ensures Valid(Contents())
      ensures forall at, afterId :: ClearLaw(old(Contents()), Contents(), scope, at, afterId)
      ensures count == |set at <- old(state).Keys | at.scope == scope| + |Where(old(log), In(scope))|
                       + |set at <- old(counters).Keys | at.scope == scope|
    {
      ghost var t := Contents();
      ghost var after := Step(t, ClearScope(scope)).0;
      forall at, afterId ensures ClearLaw(t, after, scope, at, afterId) {
        ClearRemovesTheScope(t, scope, at, afterId);
      }
      ClearCounts(t, scope);
      StepKeepsValid(t, ClearScope(scope));
      hide ClearLaw, Valid, Where, OutsideScope;
      var keptState := OutsideScope(state, scope);
      count := |state| - |keptState|;
      state := keptState;
      var keptLog := Where(log, OutOf(scope));
      count := count + |log| - |keptLog|;
      log := keptLog;
      var keptCounters := OutsideScope(counters, scope);
      count := count + |counters| - |keptCounters|;
      counters := keptCounters;
    }

    method StateAppend(at: RowKey, item: Bytes) returns (id: int)
      requires Valid(Contents())
      modifies this`log, this`lastLogId
      ensures (Contents(), Ordinal(id)) == Step(old(Contents()), Append(at, item))
      ensures Valid(Contents())
      ensures forall other, afterId :: AppendLaw(old(log), log, at, item, id, other, afterId)
    {
      ghost var t := Contents();
      ghost var (after, reply) := Step(t, Append(at, item));
      forall other, afterId ensures reply.Ordinal? && AppendLaw(t.log, after.log, at, item, reply.id, other, afterId) {
        AppendObeysLaw(t, at, item, other, afterId);
      }
      StepKeepsValid(t, Append(at, item));
      hide AppendLaw, Valid;
      id := lastLogId + 1;
      lastLogId := id;
      log := log + [Row(id, at, item)];
    }

    method StateLogScan(at: RowKey, afterId: int, limit: Option<int>) returns (entries: seq<Entry>)
      requires Valid(Contents())
      ensures (Contents(), Entries(entries)) == Step(Contents(), LogScan(at, afterId, limit))
      ensures LogPageLaw(log, at, afterId, limit, entries)
    {
      LogPageObeysLaw(Contents(), at, afterId, limit);
      hide LogPageLaw, EntriesAfter;
      entries := Limited(EntriesAfter(log, at, afterId), limit);
    }

    method StateCounterGet(at: RowKey) returns (n: int)
      ensures (Contents(), Number(n)) == Step(Contents(), CounterGet(at))
      ensures n == if at in counters then counters[at] else 0
    {
      n := if at in counters then counters[at] else 0;
    }

    /** `INSERT ... ON CONFLICT DO UPDATE SET n = n + excluded.n RETURNING n`. */
    method StateCounterAdd(at: RowKey, delta: int) returns (n: int)
      modifies this`counters
      ensures (Contents(), Number(n)) == Step(old(Contents()), CounterAdd(at, delta))
      ensures forall other :: AddLaw(old(counters), counters, at, delta, n, other)
    {
      n := if at in counters then counters[at] + delta else delta;
      counters := counters[at := n];
    }

    method StateCounterSet(at: RowKey, value: int)
      modifies this`counters
      ensures (Contents(), Done) == Step(old(Contents()), CounterSet(at, value))
      ensures at in counters && counters[at] == value
      ensures forall other :: other != at ==> Keeps(old(counters), counters, other, true)
    {
      counters := counters[at := value];
    }

    method StateCounterDelete(at: RowKey)
      modifies this`counters
      ensures (Contents(), Done) == Step(old(Contents()), CounterDelete(at))
      ensures at !in counters && forall other :: other != at ==> Keeps(old(counters), counters, other, true)
    {
      counters := counters - {at};
    }
  }
}
