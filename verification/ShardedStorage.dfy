/**
 The sharding wrapper: one shared store whose row ids are prefixed by the shard key behaves, for every
 shard, as a private store of its own. Log ordinals correspond by an order-preserving renaming.
 */
module ShardedStorage {
  import opened Common
  import opened Bytes
  import opened Storage
  import opened StorageRuns
  import opened ShardKeys

  // ---- Prefixed operations ---------------------------------------------------------------------

  function Under(mark: Bytes, at: RowKey): RowKey { RowKey(mark + at.scope, at.ns, at.key) }

  /** What the wrapper passes to the store it wraps. */
  function Marked(mark: Bytes, op: Op): Op {
    match op
    case QueuePush(execution, items) => QueuePush(mark + execution, items)
    case QueuePop(execution) => QueuePop(mark + execution)
    case QueueClear(execution) => QueueClear(mark + execution)
    case GetMany(scope, ns, keys) => GetMany(mark + scope, ns, keys)
    case PutMany(scope, ns, pairs) => PutMany(mark + scope, ns, pairs)
    case Scan(scope, ns, range, reverse, limit) => Scan(mark + scope, ns, range, reverse, limit)
    case Drain(scope, ns) => Drain(mark + scope, ns)
    case Delete(scope, ns, only, range) => Delete(mark + scope, ns, only, range)
    case ClearScope(scope) => ClearScope(mark + scope)
    case Append(at, item) => Append(Under(mark, at), item)
    case LogScan(at, afterId, limit) => LogScan(Under(mark, at), afterId, limit)
    case CounterGet(at) => CounterGet(Under(mark, at))
    case CounterAdd(at, delta) => CounterAdd(Under(mark, at), delta)
    case CounterSet(at, value) => CounterSet(Under(mark, at), value)
    case CounterDelete(at) => CounterDelete(Under(mark, at))
  }

  function ScopeOf(op: Op): Bytes {
    match op
    case QueuePush(execution, _) => execution
    case QueuePop(execution) => execution
    case QueueClear(execution) => execution
    case GetMany(scope, _, _) => scope
    case PutMany(scope, _, _) => scope
    case Scan(scope, _, _, _, _) => scope
    case Drain(scope, _) => scope
    case Delete(scope, _, _, _) => scope
    case ClearScope(scope) => scope
    case Append(at, _) => at.scope
    case LogScan(at, _, _) => at.scope
    case CounterGet(at) => at.scope
    case CounterAdd(at, _) => at.scope
    case CounterSet(at, _) => at.scope
    case CounterDelete(at) => at.scope
  }

  lemma MarkedScope(mark: Bytes, op: Op)
    ensures ScopeOf(Marked(mark, op)) == mark + ScopeOf(op)
  {
  }

  lemma SameRest(mark: Bytes, x: Bytes, y: Bytes)
    requires mark + x == mark + y
    ensures x == y
  {
    assert (mark + x)[|mark|..] == x && (mark + y)[|mark|..] == y;
  }

  lemma ScopeUnder(mark: Bytes, scope: Bytes)
    ensures forall at: RowKey :: Under(mark, at).scope == mark + scope <==> at.scope == scope
  {
    forall at: RowKey ensures Under(mark, at).scope == mark + scope <==> at.scope == scope {
      if mark + at.scope == mark + scope {
        SameRest(mark, at.scope, scope);
      }
    }
  }

  // ---- Renamed ordinals ------------------------------------------------------------------------

  /** `ordinals[i]` is the shared ordinal of the shard's own ordinal `i + 1`. */
  ghost predicate Increasing(ordinals: seq<int>, last: int) {
    && (forall i, j :: 0 <= i < j < |ordinals| ==> ordinals[i] < ordinals[j])
    && (forall i :: 0 <= i < |ordinals| ==> 0 < ordinals[i] <= last)
  }

  /** The own cursor that cuts the shard's log where a shared cursor does. */
  function OwnCursor(ordinals: seq<int>, cursor: int): nat {
    if ordinals == [] then 0
    else OwnCursor(ordinals[..|ordinals| - 1], cursor) + if ordinals[|ordinals| - 1] <= cursor then 1 else 0
  }

  lemma {:induction false} OwnCursorCutsAlike(ordinals: seq<int>, last: int, cursor: int)
    requires Increasing(ordinals, last)
    ensures OwnCursor(ordinals, cursor) <= |ordinals|
    ensures forall i :: 0 <= i < |ordinals| ==> (ordinals[i] > cursor <==> i + 1 > OwnCursor(ordinals, cursor))
  {
    if ordinals != [] {
      var init := ordinals[..|ordinals| - 1];
      OwnCursorCutsAlike(init, last, cursor);
      var k := OwnCursor(init, cursor);
      if k < |init| {
        assert ordinals[k] > cursor;
      }
    }
  }

  /** A cursor before all ordinals is the start, and one that was handed out is the own one renamed to it. */
  lemma OwnCursorOfOrdinal(ordinals: seq<int>, last: int, cursor: int)
    requires Increasing(ordinals, last)
    ensures cursor <= 0 ==> OwnCursor(ordinals, cursor) == 0
    ensures forall i :: 0 <= i < |ordinals| && ordinals[i] == cursor ==> OwnCursor(ordinals, cursor) == i + 1
  {
    OwnCursorCutsAlike(ordinals, last, cursor);
    var k := OwnCursor(ordinals, cursor);
    assert cursor <= 0 ==> forall i :: 0 <= i < |ordinals| ==> ordinals[i] > cursor;
    forall i | 0 <= i < |ordinals| && ordinals[i] == cursor ensures k == i + 1 {
      if i + 1 < |ordinals| {
        assert ordinals[i + 1] > cursor;
      }
    }
  }

  ghost predicate IdsWithin(rows: seq<LogRow>, n: nat) {
    forall i :: 0 <= i < |rows| ==> 1 <= rows[i].id <= n
  }

  function Renamed(row: LogRow, mark: Bytes, ordinals: seq<int>): LogRow
    requires 1 <= row.id <= |ordinals|
  {
    Row(ordinals[row.id - 1], Under(mark, row.owner), row.value)
  }

  ghost function RenamedAll(rows: seq<LogRow>, mark: Bytes, ordinals: seq<int>): (r: seq<LogRow>)
    requires IdsWithin(rows, |ordinals|)
    ensures |r| == |rows|
  {
    seq(|rows|, i requires 0 <= i < |rows| => Renamed(rows[i], mark, ordinals))
  }

  function InShard(mark: Bytes): LogRow -> bool { (r: LogRow) => mark <= r.owner.scope }

  /** Selecting renamed rows is renaming selected rows. */
  lemma {:induction false} WhereRenamed(rows: seq<LogRow>, mark: Bytes, ordinals: seq<int>, p: LogRow -> bool,
                                        q: LogRow -> bool)
    requires IdsWithin(rows, |ordinals|)
    requires forall i :: 0 <= i < |rows| ==> (p(rows[i]) <==> q(Renamed(rows[i], mark, ordinals)))
    ensures IdsWithin(Where(rows, p), |ordinals|)
    ensures Where(RenamedAll(rows, mark, ordinals), q) == RenamedAll(Where(rows, p), mark, ordinals)
  {
    if rows != [] {
      var init, last := rows[..|rows| - 1], rows[|rows| - 1];
      WhereRenamed(init, mark, ordinals, p, q);
      var all := RenamedAll(rows, mark, ordinals);
      assert all[..|all| - 1] == RenamedAll(init, mark, ordinals);
    }
  }

  // ---- The simulation --------------------------------------------------------------------------

  ghost predicate SameMap<V>(mark: Bytes, shared: map<RowKey, V>, own: map<RowKey, V>) {
    forall at ::
      && (at in own <==> Under(mark, at) in shared)
      && (at in own ==> own[at] == shared[Under(mark, at)])
  }

  ghost predicate SameQueues(mark: Bytes, shared: seq<Job>, own: seq<Job>) {
    forall execution :: QueueOf(own, execution) == QueueOf(shared, mark + execution)
  }

  ghost predicate SameLog(mark: Bytes, shared: Tables, own: Tables, ordinals: seq<int>) {
    && |ordinals| == own.lastLogId
    && Increasing(ordinals, shared.lastLogId) && 0 <= shared.lastLogId
    && IdsWithin(own.log, |ordinals|)
    && Where(shared.log, InShard(mark)) == RenamedAll(own.log, mark, ordinals)
  }

  /** The shard's part of the shared tables is its own store, its ordinals renamed. */
  ghost predicate Simulates(mark: Bytes, shared: Tables, own: Tables, ordinals: seq<int>) {
    && SameMap(mark, shared.state, own.state)
    && SameMap(mark, shared.counters, own.counters)
    && SameQueues(mark, shared.queue, own.queue)
    && SameLog(mark, shared, own, ordinals)
  }

  /** The operation as the own store is given it: the same but for the cursor. */
  function OwnOp(ordinals: seq<int>, op: Op): Op {
    if op.LogScan? then op.(afterId := OwnCursor(ordinals, op.afterId)) else op
  }

  ghost predicate SameReply(ordinals: seq<int>, shared: Reply, own: Reply) {
    match own
    case Ordinal(id) => 1 <= id <= |ordinals| && shared == Ordinal(ordinals[id - 1])
    case Entries(entries) =>
      && shared.Entries? && |shared.entries| == |entries|
      && forall i :: 0 <= i < |entries| ==>
           && 1 <= entries[i].id <= |ordinals|
           && shared.entries[i] == Entry(ordinals[entries[i].id - 1], entries[i].value)
    case _ => shared == own
  }

  // ---- Key-value rows and counters -------------------------------------------------------------

  lemma UpdateKeepsSame<V>(mark: Bytes, shared: map<RowKey, V>, own: map<RowKey, V>, at: RowKey, v: V)
    requires SameMap(mark, shared, own)
    ensures SameMap(mark, shared[Under(mark, at) := v], own[at := v])
  {
    forall other ensures Under(mark, other) == Under(mark, at) ==> other == at {
      if Under(mark, other) == Under(mark, at) {
        SameRest(mark, other.scope, at.scope);
      }
    }
  }

  lemma RemovalKeepsSame<V>(mark: Bytes, shared: map<RowKey, V>, own: map<RowKey, V>, sharedKept: map<RowKey, V>,
                            ownKept: map<RowKey, V>)
    requires SameMap(mark, shared, own)
    requires forall at :: at in sharedKept ==> at in shared && sharedKept[at] == shared[at]
    requires forall at :: at in ownKept ==> at in own && ownKept[at] == own[at]
    requires forall at :: at in own ==> (at in ownKept <==> Under(mark, at) in sharedKept)
    ensures SameMap(mark, sharedKept, ownKept)
  {
  }

  lemma {:induction false} PutAllKeepsSame(mark: Bytes, shared: map<RowKey, Bytes>, own: map<RowKey, Bytes>,
                                           scope: Bytes, ns: Bytes, pairs: seq<Pair>)
    requires SameMap(mark, shared, own)
    ensures SameMap(mark, PutAll(shared, mark + scope, ns, pairs), PutAll(own, scope, ns, pairs))
  {
    hide SameMap;
    if pairs != [] {
      var init, last := pairs[..|pairs| - 1], pairs[|pairs| - 1];
      PutAllKeepsSame(mark, shared, own, scope, ns, init);
      UpdateKeepsSame(mark, PutAll(shared, mark + scope, ns, init), PutAll(own, scope, ns, init),
                      RowKey(scope, ns, last.key), last.value);
    }
  }

  lemma SameScan(mark: Bytes, shared: map<RowKey, Bytes>, own: map<RowKey, Bytes>, scope: Bytes, ns: Bytes,
                 range: Range, reverse: bool, limit: Option<int>)
    requires SameMap(mark, shared, own)
    ensures ScanOf(shared, mark + scope, ns, range, reverse, limit) == ScanOf(own, scope, ns, range, reverse, limit)
  {
    hide InRange, Listed;
    assert forall k :: Under(mark, RowKey(scope, ns, k)) == RowKey(mark + scope, ns, k);
    assert KeysIn(shared, mark + scope, ns, range) == KeysIn(own, scope, ns, range);
  }

  lemma SameNamespace(mark: Bytes, shared: map<RowKey, Bytes>, own: map<RowKey, Bytes>, scope: Bytes, ns: Bytes)
    requires SameMap(mark, shared, own)
    ensures Namespace(shared, mark + scope, ns) == Namespace(own, scope, ns)
  {
    var a, b := Namespace(shared, mark + scope, ns), Namespace(own, scope, ns);
    forall k ensures k in a <==> k in b
             ensures k in a ==> a[k] == b[k]
    {
      var at := RowKey(scope, ns, k);
      assert Under(mark, at) == RowKey(mark + scope, ns, k);
      assert (at in own <==> Under(mark, at) in shared) && (at in own ==> own[at] == shared[Under(mark, at)]);
    }
  }

  // ---- Counting removed rows -------------------------------------------------------------------

  /** A row key without its scope. */
  function Tail(at: RowKey): (Bytes, Bytes) { (at.ns, at.key) }

  ghost function TailsOf(keys: set<RowKey>): set<(Bytes, Bytes)> { set at <- keys :: Tail(at) }

  lemma {:induction false} TailsCount(keys: set<RowKey>, scope: Bytes)
    requires forall at <- keys :: at.scope == scope
    ensures |TailsOf(keys)| == |keys|
    decreases |keys|
  {
    if keys == {} {
      assert TailsOf(keys) == {};
    } else {
      var at :| at in keys;
      TailsCount(keys - {at}, scope);
      assert TailsOf(keys) == TailsOf(keys - {at}) + {Tail(at)};
    }
  }

  lemma SameTails(mark: Bytes, scope: Bytes, gone: set<RowKey>, ownGone: set<RowKey>)
    requires forall at <- gone :: at.scope == mark + scope
    requires forall at <- ownGone :: at.scope == scope
    requires forall at :: at in ownGone <==> Under(mark, at) in gone
    ensures |gone| == |ownGone|
  {
    hide Under;
    TailsCount(gone, mark + scope);
    TailsCount(ownGone, scope);
    SameTailSets(mark, scope, gone, ownGone);
  }

  lemma SameTailSets(mark: Bytes, scope: Bytes, gone: set<RowKey>, ownGone: set<RowKey>)
    requires forall at <- gone :: at.scope == mark + scope
    requires forall at <- ownGone :: at.scope == scope
    requires forall at :: at in ownGone <==> Under(mark, at) in gone
    ensures TailsOf(gone) == TailsOf(ownGone)
  {
    forall tail | tail in TailsOf(gone) ensures tail in TailsOf(ownGone) {
      var there :| there in gone && Tail(there) == tail;
      var at := RowKey(scope, there.ns, there.key);
      assert Under(mark, at) == there && Tail(at) == tail;
    }
    forall tail | tail in TailsOf(ownGone) ensures tail in TailsOf(gone) {
      var at :| at in ownGone && Tail(at) == tail;
      assert Tail(Under(mark, at)) == tail;
    }
  }

  /** Rows removed within one scope are as many in the shared map as in the own one. */
  lemma SameCount<V>(mark: Bytes, scope: Bytes, shared: map<RowKey, V>, own: map<RowKey, V>, sharedKept: map<RowKey, V>,
                     ownKept: map<RowKey, V>)
    requires SameMap(mark, shared, own)
    requires sharedKept.Keys <= shared.Keys && ownKept.Keys <= own.Keys
    requires forall at <- shared.Keys :: at !in sharedKept ==> at.scope == mark + scope
    requires forall at <- own.Keys :: at !in ownKept ==> at.scope == scope
    requires forall at :: at in own ==> (at in ownKept <==> Under(mark, at) in sharedKept)
    ensures |shared| - |sharedKept| == |own| - |ownKept|
  {
    hide Under;
    KeysCount(shared, sharedKept);
    KeysCount(own, ownKept);
    SameTails(mark, scope, shared.Keys - sharedKept.Keys, own.Keys - ownKept.Keys);
  }

  lemma KeysCount<V>(m: map<RowKey, V>, kept: map<RowKey, V>)
    requires kept.Keys <= m.Keys
    ensures |m| - |kept| == |m.Keys - kept.Keys|
  {
    assert |m.Keys| == |m| && |kept.Keys| == |kept|;
  }

  // ---- One operation of the shard itself -------------------------------------------------------

  ghost function NextOrdinals(ordinals: seq<int>, op: Op, shared: Tables): seq<int> {
    if op.Append? then ordinals + [shared.lastLogId] else ordinals
  }

  /** Both stores take the operation, and answer alike. */
  ghost predicate StepsTogether(mark: Bytes, shared: Tables, own: Tables, ordinals: seq<int>, op: Op) {
    var (sharedAfter, sharedReply) := Step(shared, Marked(mark, op));
    var (ownAfter, ownReply) := Step(own, OwnOp(ordinals, op));
    var after := NextOrdinals(ordinals, op, sharedAfter);
    Simulates(mark, sharedAfter, ownAfter, after) && SameReply(after, sharedReply, ownReply)
  }

  lemma OwnQueueStep(mark: Bytes, shared: Tables, own: Tables, ordinals: seq<int>, op: Op)
    requires Simulates(mark, shared, own, ordinals) && (op.QueuePush? || op.QueuePop? || op.QueueClear?)
    ensures StepsTogether(mark, shared, own, ordinals, op)
  {
    hide QueueOf, Where, Pushed, OldestJob, SameMap, SameLog;
    var sharedAfter, ownAfter := Step(shared, Marked(mark, op)).0, Step(own, op).0;
    forall e ensures QueueOf(ownAfter.queue, e) == QueueOf(sharedAfter.queue, mark + e) {
      QueuesAreSeparate(own, op, e);
      QueuesAreSeparate(shared, Marked(mark, op), mark + e);
      if mark + e == mark + ScopeOf(op) {
        SameRest(mark, e, ScopeOf(op));
      }
    }
    assert sharedAfter == shared.(queue := sharedAfter.queue, lastJobId := sharedAfter.lastJobId);
    assert ownAfter == own.(queue := ownAfter.queue, lastJobId := ownAfter.lastJobId);
    SameLogKept(mark, shared, own, ordinals, sharedAfter, ownAfter);
    QueuesAreSeparate(own, op, ScopeOf(op));
    QueuesAreSeparate(shared, Marked(mark, op), mark + ScopeOf(op));
  }

  lemma SameLogKept(mark: Bytes, shared: Tables, own: Tables, ordinals: seq<int>, sharedAfter: Tables, ownAfter: Tables)
    requires SameLog(mark, shared, own, ordinals)
    requires sharedAfter.log == shared.log && sharedAfter.lastLogId == shared.lastLogId
    requires ownAfter.log == own.log && ownAfter.lastLogId == own.lastLogId
    ensures SameLog(mark, sharedAfter, ownAfter, ordinals)
  {
  }

  lemma StateSimulates(mark: Bytes, shared: Tables, own: Tables, ordinals: seq<int>, a: map<RowKey, Bytes>,
                       b: map<RowKey, Bytes>)
    requires Simulates(mark, shared, own, ordinals) && SameMap(mark, a, b)
    ensures Simulates(mark, shared.(state := a), own.(state := b), ordinals)
  {
    hide SameMap, SameQueues, SameLog;
    SameLogKept(mark, shared, own, ordinals, shared.(state := a), own.(state := b));
  }

  lemma CountersSimulate(mark: Bytes, shared: Tables, own: Tables, ordinals: seq<int>, a: map<RowKey, int>,
                         b: map<RowKey, int>)
    requires Simulates(mark, shared, own, ordinals) && SameMap(mark, a, b)
    ensures Simulates(mark, shared.(counters := a), own.(counters := b), ordinals)
  {
    hide SameMap, SameQueues, SameLog;
    SameLogKept(mark, shared, own, ordinals, shared.(counters := a), own.(counters := b));
  }

  /** Operations on key-value rows touch nothing else. */
  lemma OnlyState(t: Tables, op: Op)
    requires op.GetMany? || op.PutMany? || op.Scan? || op.Drain? || op.Delete?
    ensures Step(t, op).0 == t.(state := Step(t, op).0.state)
  {
    hide QueueOf, Where, PutAll, ScanOf, Namespace, Deletes, GetOf;
  }

  lemma OwnStateStep(mark: Bytes, shared: Tables, own: Tables, ordinals: seq<int>, op: Op)
    requires Simulates(mark, shared, own, ordinals)
    requires op.GetMany? || op.PutMany? || op.Scan? || op.Drain? || op.Delete?
    ensures StepsTogether(mark, shared, own, ordinals, op)
  {
    assert SameMap(mark, shared.state, own.state);
    hide QueueOf, Where, PutAll, ScanOf, SameQueues, SameLog, Namespace, InRange, SameMap, Simulates, Deletes, GetOf;
    OnlyState(shared, Marked(mark, op));
    OnlyState(own, op);
    SameStateAnswer(mark, shared, own, op);
    StateSimulates(mark, shared, own, ordinals, Step(shared, Marked(mark, op)).0.state, Step(own, op).0.state);
    hide Step;
  }

  lemma SameStateAnswer(mark: Bytes, shared: Tables, own: Tables, op: Op)
    requires SameMap(mark, shared.state, own.state)
    requires op.GetMany? || op.PutMany? || op.Scan? || op.Drain? || op.Delete?
    ensures SameMap(mark, Step(shared, Marked(mark, op)).0.state, Step(own, op).0.state)
    ensures Step(shared, Marked(mark, op)).1 == Step(own, op).1 && !Step(own, op).1.Ordinal?
            && !Step(own, op).1.Entries?
  {
    hide QueueOf, Where, PutAll, ScanOf, Namespace, InRange, SameMap, GetOf, Deletes;
    match op
    case GetMany(scope, ns, keys) => SameValues(mark, shared, own, scope, ns, keys);
    case PutMany(scope, ns, pairs) => PutAllKeepsSame(mark, shared.state, own.state, scope, ns, pairs);
    case Scan(scope, ns, range, reverse, limit) =>
      SameScan(mark, shared.state, own.state, scope, ns, range, reverse, limit);
    case Drain(scope, ns) => SameDrain(mark, shared, own, scope, ns);
    case Delete(scope, ns, only, range) => SameDelete(mark, shared, own, scope, ns, only, range);
  }

  lemma SameValues(mark: Bytes, shared: Tables, own: Tables, scope: Bytes, ns: Bytes, keys: seq<Bytes>)
    requires SameMap(mark, shared.state, own.state)
    ensures Step(shared, GetMany(mark + scope, ns, keys)) == (shared, Step(own, GetMany(scope, ns, keys)).1)
  {
    assert forall k :: Under(mark, RowKey(scope, ns, k)) == RowKey(mark + scope, ns, k);
    assert Step(shared, GetMany(mark + scope, ns, keys)).1.values == Step(own, GetMany(scope, ns, keys)).1.values;
  }

  lemma SameDrain(mark: Bytes, shared: Tables, own: Tables, scope: Bytes, ns: Bytes)
    requires SameMap(mark, shared.state, own.state)
    ensures SameMap(mark, Step(shared, Drain(mark + scope, ns)).0.state, Step(own, Drain(scope, ns)).0.state)
    ensures Step(shared, Drain(mark + scope, ns)).1 == Step(own, Drain(scope, ns)).1
  {
    hide Namespace, SameMap;
    SameNamespace(mark, shared.state, own.state, scope, ns);
    ScopeUnder(mark, scope);
    OwnUnder(mark, shared.state, own.state);
    RemovalKeepsSame(mark, shared.state, own.state, Step(shared, Drain(mark + scope, ns)).0.state,
                     Step(own, Drain(scope, ns)).0.state);
  }

  function Kept(state: map<RowKey, Bytes>, scope: Bytes, ns: Bytes, only: Option<seq<Bytes>>,
                range: Range): map<RowKey, Bytes> {
    map at <- state.Keys | !Deletes(scope, ns, only, range, at) :: state[at]
  }

  lemma SameDelete(mark: Bytes, shared: Tables, own: Tables, scope: Bytes, ns: Bytes, only: Option<seq<Bytes>>,
                   range: Range)
    requires SameMap(mark, shared.state, own.state)
    ensures SameMap(mark, Step(shared, Delete(mark + scope, ns, only, range)).0.state,
                    Step(own, Delete(scope, ns, only, range)).0.state)
    ensures Step(shared, Delete(mark + scope, ns, only, range)).1 == Step(own, Delete(scope, ns, only, range)).1
  {
    hide InRange, SameMap, Kept, Deletes;
    SameKept(mark, shared.state, own.state, scope, ns, only, range);
    KeptIsDeleted(shared, mark + scope, ns, only, range);
    KeptIsDeleted(own, scope, ns, only, range);
    hide Step;
  }

  lemma KeptIsDeleted(t: Tables, scope: Bytes, ns: Bytes, only: Option<seq<Bytes>>, range: Range)
    ensures Step(t, Delete(scope, ns, only, range))
            == if only.Some? && (range.start.Some? || range.end.Some?) then (t, Invalid)
               else (t.(state := Kept(t.state, scope, ns, only, range)),
                     Count(|t.state| - |Kept(t.state, scope, ns, only, range)|))
  {
    hide Deletes;
  }

  lemma SameKept(mark: Bytes, shared: map<RowKey, Bytes>, own: map<RowKey, Bytes>, scope: Bytes, ns: Bytes,
                 only: Option<seq<Bytes>>, range: Range)
    requires SameMap(mark, shared, own)
    ensures var a, b := Kept(shared, mark + scope, ns, only, range), Kept(own, scope, ns, only, range);
            SameMap(mark, a, b) && |shared| - |a| == |own| - |b|
  {
    hide InRange, SameMap;
    ScopeUnder(mark, scope);
    var a, b := Kept(shared, mark + scope, ns, only, range), Kept(own, scope, ns, only, range);
    OwnUnder(mark, shared, own);
    RemovalKeepsSame(mark, shared, own, a, b);
    SameCount(mark, scope, shared, own, a, b);
  }

  lemma OwnUnder<V>(mark: Bytes, shared: map<RowKey, V>, own: map<RowKey, V>)
    requires SameMap(mark, shared, own)
    ensures forall at <- own.Keys :: Under(mark, at) in shared
  {
  }

  lemma OnlyCounters(t: Tables, op: Op)
    requires op.CounterGet? || op.CounterAdd? || op.CounterSet? || op.CounterDelete?
    ensures Step(t, op).0 == t.(counters := Step(t, op).0.counters)
  {
    hide CounterOf;
  }

  lemma OwnCounterStep(mark: Bytes, shared: Tables, own: Tables, ordinals: seq<int>, op: Op)
    requires Simulates(mark, shared, own, ordinals)
    requires op.CounterGet? || op.CounterAdd? || op.CounterSet? || op.CounterDelete?
    ensures StepsTogether(mark, shared, own, ordinals, op)
  {
    assert SameMap(mark, shared.counters, own.counters);
    hide Simulates, SameMap, SameQueues, SameLog;
    OnlyCounters(shared, Marked(mark, op));
    OnlyCounters(own, op);
    SameCounterAnswer(mark, shared, own, op);
    CountersSimulate(mark, shared, own, ordinals, Step(shared, Marked(mark, op)).0.counters, Step(own, op).0.counters);
    hide Step;
  }

  lemma SameCounter(mark: Bytes, shared: map<RowKey, int>, own: map<RowKey, int>, at: RowKey)
    requires SameMap(mark, shared, own)
    ensures CounterOf(shared, Under(mark, at)) == CounterOf(own, at)
  {
  }

  lemma SameCounterAnswer(mark: Bytes, shared: Tables, own: Tables, op: Op)
    requires SameMap(mark, shared.counters, own.counters)
    requires op.CounterGet? || op.CounterAdd? || op.CounterSet? || op.CounterDelete?
    ensures SameMap(mark, Step(shared, Marked(mark, op)).0.counters, Step(own, op).0.counters)
    ensures Step(shared, Marked(mark, op)).1 == Step(own, op).1 && !Step(own, op).1.Ordinal?
            && !Step(own, op).1.Entries?
  {
    hide SameMap, CounterOf, Step;
    SameCounter(mark, shared.counters, own.counters, op.at);
    CounterStep(shared, Marked(mark, op));
    CounterStep(own, op);
    match op
    case CounterGet(at) =>
    case CounterAdd(at, delta) =>
      UpdateKeepsSame(mark, shared.counters, own.counters, at, CounterOf(own.counters, at) + delta);
    case CounterSet(at, value) => UpdateKeepsSame(mark, shared.counters, own.counters, at, value);
    case CounterDelete(at) => CounterRemoved(mark, shared.counters, own.counters, at);
  }

  /** What a counter operation makes of the counters, and answers. */
  lemma CounterStep(t: Tables, op: Op)
    requires op.CounterGet? || op.CounterAdd? || op.CounterSet? || op.CounterDelete?
    ensures (Step(t, op).0.counters, Step(t, op).1)
            == match op
               case CounterGet(at) => (t.counters, Number(CounterOf(t.counters, at)))
               case CounterAdd(at, delta) =>
                 (t.counters[at := CounterOf(t.counters, at) + delta], Number(CounterOf(t.counters, at) + delta))
               case CounterSet(at, value) => (t.counters[at := value], Done)
               case CounterDelete(at) => (t.counters - {at}, Done)
               case _ => (t.counters, Invalid)
  {
    hide CounterOf;
  }

  lemma CounterRemoved(mark: Bytes, shared: map<RowKey, int>, own: map<RowKey, int>, at: RowKey)
    requires SameMap(mark, shared, own)
    ensures SameMap(mark, shared - {Under(mark, at)}, own - {at})
  {
    forall other ensures Under(mark, other) == Under(mark, at) ==> other == at {
      if Under(mark, other) == Under(mark, at) {
        SameRest(mark, other.scope, at.scope);
      }
    }
  }

  lemma OwnAppendStep(mark: Bytes, shared: Tables, own: Tables, ordinals: seq<int>, at: RowKey, item: Bytes)
    requires Simulates(mark, shared, own, ordinals)
    ensures StepsTogether(mark, shared, own, ordinals, Append(at, item))
  {
    hide SameQueues, SameMap, SameLog;
    AppendedLog(mark, shared, own, ordinals, at, item);
  }

  lemma AppendedLog(mark: Bytes, shared: Tables, own: Tables, ordinals: seq<int>, at: RowKey, item: Bytes)
    requires SameLog(mark, shared, own, ordinals)
    ensures SameLog(mark, Step(shared, Append(Under(mark, at), item)).0, Step(own, Append(at, item)).0,
                    ordinals + [shared.lastLogId + 1])
    ensures |ordinals| == own.lastLogId
  {
    hide Where, RenamedAll;
    var row := Row(shared.lastLogId + 1, Under(mark, at), item);
    var ownRow := Row(own.lastLogId + 1, at, item);
    WhereAppend(shared.log, [row], InShard(mark));
    WhereOne(row, InShard(mark));
    RenamedAppend(own.log, ownRow, mark, ordinals, shared.lastLogId + 1);
  }

  lemma RenamedAppend(rows: seq<LogRow>, row: LogRow, mark: Bytes, ordinals: seq<int>, id: int)
    requires IdsWithin(rows, |ordinals|) && row.id == |ordinals| + 1
    ensures IdsWithin(rows + [row], |ordinals + [id]|)
    ensures RenamedAll(rows + [row], mark, ordinals + [id])
            == RenamedAll(rows, mark, ordinals) + [Row(id, Under(mark, row.owner), row.value)]
  {
  }

  lemma OwnLogScanStep(mark: Bytes, shared: Tables, own: Tables, ordinals: seq<int>, at: RowKey, afterId: int,
                       limit: Option<int>)
    requires Simulates(mark, shared, own, ordinals)
    ensures StepsTogether(mark, shared, own, ordinals, LogScan(at, afterId, limit))
  {
    hide SameQueues, SameMap, Where, SameLog;
    SelectedAlike(mark, shared, own, ordinals, at, afterId);
    SameEntries(mark, shared, own, ordinals, at, afterId, limit);
  }

  /** The rows a shared cursor selects are the renamed rows its translation selects. */
  lemma SelectedAlike(mark: Bytes, shared: Tables, own: Tables, ordinals: seq<int>, at: RowKey, afterId: int)
    requires SameLog(mark, shared, own, ordinals)
    ensures var mine := Where(own.log, Beyond(at, OwnCursor(ordinals, afterId)));
            IdsWithin(mine, |ordinals|)
            && Where(shared.log, Beyond(Under(mark, at), afterId)) == RenamedAll(mine, mark, ordinals)
  {
    hide Where;
    var there, cursor := Under(mark, at), OwnCursor(ordinals, afterId);
    OwnCursorCutsAlike(ordinals, shared.lastLogId, afterId);
    WhereTwice(shared.log, InShard(mark), Beyond(there, afterId), Beyond(there, afterId));
    forall i | 0 <= i < |own.log|
      ensures Beyond(at, cursor)(own.log[i]) <==> Beyond(there, afterId)(Renamed(own.log[i], mark, ordinals))
    {
      if Under(mark, own.log[i].owner) == there {
        SameRest(mark, own.log[i].owner.scope, at.scope);
      }
    }
    WhereRenamed(own.log, mark, ordinals, Beyond(at, cursor), Beyond(there, afterId));
  }

  lemma SameEntries(mark: Bytes, shared: Tables, own: Tables, ordinals: seq<int>, at: RowKey, afterId: int,
                    limit: Option<int>)
    requires var mine := Where(own.log, Beyond(at, OwnCursor(ordinals, afterId)));
             IdsWithin(mine, |ordinals|)
             && Where(shared.log, Beyond(Under(mark, at), afterId)) == RenamedAll(mine, mark, ordinals)
    ensures SameReply(ordinals, Entries(Limited(EntriesAfter(shared.log, Under(mark, at), afterId), limit)),
                      Entries(Limited(EntriesAfter(own.log, at, OwnCursor(ordinals, afterId)), limit)))
  {
    hide Where, OwnCursor, Limited, RenamedAll, EntriesOf;
    var mine := Where(own.log, Beyond(at, OwnCursor(ordinals, afterId)));
    EntriesOfRenamed(mine, mark, ordinals);
    LimitedAlike(EntriesOf(RenamedAll(mine, mark, ordinals)), EntriesOf(mine), limit);
  }

  lemma EntriesOfRenamed(rows: seq<LogRow>, mark: Bytes, ordinals: seq<int>)
    requires IdsWithin(rows, |ordinals|)
    ensures var a, b := EntriesOf(RenamedAll(rows, mark, ordinals)), EntriesOf(rows);
            && |a| == |b|
            && forall i :: 0 <= i < |b| ==>
               1 <= b[i].id <= |ordinals| && a[i] == Entry(ordinals[b[i].id - 1], b[i].value)
  {
  }

  lemma LimitedAlike(a: seq<Entry>, b: seq<Entry>, limit: Option<int>)
    requires |a| == |b|
    ensures var r, q := Limited(a, limit), Limited(b, limit);
            |r| == |q| <= |a| && r == a[..|r|] && q == b[..|r|]
  {
  }

  lemma OwnClearStep(mark: Bytes, shared: Tables, own: Tables, ordinals: seq<int>, scope: Bytes)
    requires Simulates(mark, shared, own, ordinals)
    ensures StepsTogether(mark, shared, own, ordinals, ClearScope(scope))
  {
    hide SameQueues, SameLog, SameMap, Where;
    ClearedLog(mark, shared, own, ordinals, scope);
    ClearedMap(mark, scope, shared.state, own.state);
    ClearedMap(mark, scope, shared.counters, own.counters);
    var sharedAfter, ownAfter := Step(shared, ClearScope(mark + scope)).0, Step(own, ClearScope(scope)).0;
    SameLogKept(mark, shared.(log := sharedAfter.log), own.(log := ownAfter.log), ordinals, sharedAfter, ownAfter);
  }

  lemma ClearedMap<V>(mark: Bytes, scope: Bytes, shared: map<RowKey, V>, own: map<RowKey, V>)
    requires SameMap(mark, shared, own)
    ensures var sharedKept := OutsideScope(shared, mark + scope);
            var ownKept := OutsideScope(own, scope);
            SameMap(mark, sharedKept, ownKept) && |shared| - |sharedKept| == |own| - |ownKept|
  {
    var sharedKept := OutsideScope(shared, mark + scope);
    var ownKept := OutsideScope(own, scope);
    ScopeUnder(mark, scope);
    RemovalKeepsSame(mark, shared, own, sharedKept, ownKept);
    SameCount(mark, scope, shared, own, sharedKept, ownKept);
  }

  lemma ClearedLog(mark: Bytes, shared: Tables, own: Tables, ordinals: seq<int>, scope: Bytes)
    requires SameLog(mark, shared, own, ordinals)
    ensures SameLog(mark, shared.(log := Where(shared.log, OutOf(mark + scope))),
                    own.(log := Where(own.log, OutOf(scope))), ordinals)
    ensures |shared.log| - |Where(shared.log, OutOf(mark + scope))| == |own.log| - |Where(own.log, OutOf(scope))|
  {
    hide Where;
    var p := InShard(mark);
    var both := (r: LogRow) => p(r) && OutOf(mark + scope)(r);
    WhereTwice(shared.log, p, OutOf(mark + scope), both);
    WhereTwice(shared.log, OutOf(mark + scope), p, both);
    forall i | 0 <= i < |own.log|
      ensures OutOf(scope)(own.log[i]) <==> OutOf(mark + scope)(Renamed(own.log[i], mark, ordinals))
    {
      if mark + own.log[i].owner.scope == mark + scope {
        SameRest(mark, own.log[i].owner.scope, scope);
      }
    }
    WhereRenamed(own.log, mark, ordinals, OutOf(scope), OutOf(mark + scope));
    var gone := (r: LogRow) => r.owner.scope == mark + scope;
    var ownGone := (r: LogRow) => r.owner.scope == scope;
    WhereSplits(shared.log, OutOf(mark + scope), gone);
    WhereSplits(own.log, OutOf(scope), ownGone);
    WhereTwice(shared.log, p, gone, gone);
    WhereRenamed(own.log, mark, ordinals, ownGone, gone);
  }

  /** Any operation of the shard does to its part of the shared store what it does to a store of its own. */
  lemma OwnStep(mark: Bytes, shared: Tables, own: Tables, ordinals: seq<int>, op: Op)
    requires Simulates(mark, shared, own, ordinals)
    ensures StepsTogether(mark, shared, own, ordinals, op)
  {
    hide *;
    match op
    case QueuePush(_, _) => OwnQueueStep(mark, shared, own, ordinals, op);
    case QueuePop(_) => OwnQueueStep(mark, shared, own, ordinals, op);
    case QueueClear(_) => OwnQueueStep(mark, shared, own, ordinals, op);
    case GetMany(_, _, _) => OwnStateStep(mark, shared, own, ordinals, op);
    case PutMany(_, _, _) => OwnStateStep(mark, shared, own, ordinals, op);
    case Scan(_, _, _, _, _) => OwnStateStep(mark, shared, own, ordinals, op);
    case Drain(_, _) => OwnStateStep(mark, shared, own, ordinals, op);
    case Delete(_, _, _, _) => OwnStateStep(mark, shared, own, ordinals, op);
    case ClearScope(scope) => OwnClearStep(mark, shared, own, ordinals, scope);
    case Append(at, item) => OwnAppendStep(mark, shared, own, ordinals, at, item);
    case LogScan(at, afterId, limit) => OwnLogScanStep(mark, shared, own, ordinals, at, afterId, limit);
    case _ => OwnCounterStep(mark, shared, own, ordinals, op);
  }

  // ---- One operation of another shard ----------------------------------------------------------

  /** An operation whose scope lies outside the shard. */
  ghost predicate Foreign(mark: Bytes, op: Op) { !(mark <= ScopeOf(op)) }

  lemma ForeignKeepsMap<V>(mark: Bytes, shared: map<RowKey, V>, after: map<RowKey, V>, own: map<RowKey, V>,
                           scope: Bytes)
    requires SameMap(mark, shared, own) && !(mark <= scope)
    requires forall at: RowKey :: at.scope != scope ==>
               (at in shared <==> at in after) && (at in shared ==> shared[at] == after[at])
    ensures SameMap(mark, after, own)
  {
    assert forall at: RowKey :: mark <= Under(mark, at).scope;
  }

  lemma {:induction false} PutAllStaysInScope(state: map<RowKey, Bytes>, scope: Bytes, ns: Bytes, pairs: seq<Pair>,
                                              at: RowKey)
    requires at.scope != scope
    ensures GetOf(PutAll(state, scope, ns, pairs), at) == GetOf(state, at)
  {
    if pairs != [] {
      PutAllStaysInScope(state, scope, ns, pairs[..|pairs| - 1], at);
    }
  }

  lemma MapsStayInScope(t: Tables, op: Op, at: RowKey)
    requires at.scope != ScopeOf(op)
    ensures var after := Step(t, op).0;
            && (at in t.state <==> at in after.state) && (at in t.state ==> t.state[at] == after.state[at])
            && (at in t.counters <==> at in after.counters)
               && (at in t.counters ==> t.counters[at] == after.counters[at])
  {
    hide PutAll, ScanOf, QueueOf, Where, OldestJob, Pushed, Namespace, CounterOf;
    if op.PutMany? {
      PutAllStaysInScope(t.state, op.scope, op.ns, op.pairs, at);
    }
  }

  lemma ForeignKeepsLog(mark: Bytes, t: Tables, op: Op)
    requires Foreign(mark, op)
    ensures Where(Step(t, op).0.log, InShard(mark)) == Where(t.log, InShard(mark))
    ensures t.lastLogId <= Step(t, op).0.lastLogId
  {
    hide PutAll, ScanOf, QueueOf, Where, OldestJob, Pushed, Namespace, CounterOf, Deletes, GetOf;
    if op.Append? {
      var row := Row(t.lastLogId + 1, op.at, op.item);
      WhereAppend(t.log, [row], InShard(mark));
      WhereOne(row, InShard(mark));
    } else if op.ClearScope? {
      WhereTwice(t.log, OutOf(op.scope), InShard(mark), InShard(mark));
    }
  }

  /** An operation of another shard leaves the simulation as it is. */
  lemma ForeignStep(mark: Bytes, shared: Tables, own: Tables, ordinals: seq<int>, op: Op)
    requires Simulates(mark, shared, own, ordinals) && Foreign(mark, op)
    ensures Simulates(mark, Step(shared, op).0, own, ordinals)
  {
    hide Step, QueueOf, SameMap, Where;
    var after := Step(shared, op).0;
    forall at: RowKey | at.scope != ScopeOf(op)
      ensures (at in shared.state <==> at in after.state)
              && (at in shared.state ==> shared.state[at] == after.state[at])
      ensures (at in shared.counters <==> at in after.counters)
              && (at in shared.counters ==> shared.counters[at] == after.counters[at])
    {
      MapsStayInScope(shared, op, at);
    }
    ForeignKeepsMap(mark, shared.state, after.state, own.state, ScopeOf(op));
    ForeignKeepsMap(mark, shared.counters, after.counters, own.counters, ScopeOf(op));
    forall e ensures QueueOf(own.queue, e) == QueueOf(after.queue, mark + e) {
      assert mark <= mark + e;
      QueuesAreSeparate(shared, op, mark + e);
    }
    ForeignKeepsLog(mark, shared, op);
  }

  // ---- Whole runs ------------------------------------------------------------------------------

  /** One call on the wrapper. */
  datatype Call = Call(key: Text, op: Op)

  ghost predicate Proper(calls: seq<Call>) { forall c <- calls :: IsShardKey(c.key) }

  /** The store under the wrapper after a run of calls. */
  ghost function SharedRun(calls: seq<Call>): Tables
    requires Proper(calls)
  {
    if calls == [] then NO_TABLES
    else
      var last := calls[|calls| - 1];
      Step(SharedRun(calls[..|calls| - 1]), Marked(Mark(last.key), last.op)).0
  }

  /** The shared ordinals handed to the shard, in order. */
  ghost function Ordinals(calls: seq<Call>, key: Text): seq<int>
    requires Proper(calls)
  {
    if calls == [] then []
    else
      var last := calls[|calls| - 1];
      var before := Ordinals(calls[..|calls| - 1], key);
      if last.key == key then NextOrdinals(before, last.op, SharedRun(calls)) else before
  }

  /** The shard's own operations, its cursors translated. */
  ghost function OwnOps(calls: seq<Call>, key: Text): seq<Op>
    requires Proper(calls)
  {
    if calls == [] then []
    else
      var last := calls[|calls| - 1];
      var before := OwnOps(calls[..|calls| - 1], key);
      if last.key == key then before + [OwnOp(Ordinals(calls[..|calls| - 1], key), last.op)] else before
  }

  /**
   After any calls with any shard keys, each shard's part of the shared store is the store that a private
   run of its own operations alone would have made.
   */
  lemma {:induction false} EachShardHasItsOwnStore(calls: seq<Call>, key: Text)
    requires Proper(calls) && IsShardKey(key)
    ensures Simulates(Mark(key), SharedRun(calls), Run(OwnOps(calls, key)), Ordinals(calls, key))
  {
    hide Step, Simulates, SameReply, Marked, OwnOp;
    if calls == [] {
      EmptyStoresAgree(Mark(key));
    } else {
      var init, last := calls[..|calls| - 1], calls[|calls| - 1];
      EachShardHasItsOwnStore(init, key);
      var before, ops := SharedRun(init), OwnOps(init, key);
      if last.key == key {
        var op := OwnOp(Ordinals(init, key), last.op);
        OwnStep(Mark(key), before, Run(ops), Ordinals(init, key), last.op);
        assert (ops + [op])[..|ops|] == ops;
      } else {
        OtherShardIsForeign(key, last.key, last.op);
        ForeignStep(Mark(key), before, Run(ops), Ordinals(init, key), Marked(Mark(last.key), last.op));
      }
    }
  }

  lemma EmptyStoresAgree(mark: Bytes)
    ensures Simulates(mark, NO_TABLES, NO_TABLES, [])
  {
  }

  lemma OtherShardIsForeign(key: Text, other: Text, op: Op)
    requires IsShardKey(key) && IsShardKey(other) && key != other
    ensures Foreign(Mark(key), Marked(Mark(other), op))
  {
    MarkedScope(Mark(other), op);
    var m, scope := Mark(key), Prefixed(other, ScopeOf(op));
    if m <= scope {
      assert scope == m + scope[|m|..];
      PrefixedIsInjective(key, scope[|m|..], other, ScopeOf(op));
    }
  }

  /** And every answer it gets is the one its own store gives, ordinals renamed in order. */
  lemma AnswersAreTheOwnStores(calls: seq<Call>, key: Text, op: Op)
    requires Proper(calls) && IsShardKey(key)
    ensures var ordinals := NextOrdinals(Ordinals(calls, key), op, Step(SharedRun(calls), Marked(Mark(key), op)).0);
            && SameReply(ordinals, Step(SharedRun(calls), Marked(Mark(key), op)).1,
                         Step(Run(OwnOps(calls, key)), OwnOp(Ordinals(calls, key), op)).1)
            && forall i, j :: 0 <= i < j < |ordinals| ==> ordinals[i] < ordinals[j]
  {
    hide Step, SameReply, Marked, OwnOp, SameMap, SameQueues;
    EachShardHasItsOwnStore(calls, key);
    OwnStep(Mark(key), SharedRun(calls), Run(OwnOps(calls, key)), Ordinals(calls, key), op);
  }
}
