/** What each operation means for the store, row by row and apart from how it is carried out. */
module StorageLaws {
  import opened Common
  import opened Bytes
  import opened Storage
  import opened StorageRuns

  // ---- The queue -------------------------------------------------------------------------------

  /** Only this execution's waiting items change. */
  ghost predicate OthersWait(before: seq<Job>, after: seq<Job>, execution: Bytes) {
    forall e :: e != execution ==> QueueOf(after, e) == QueueOf(before, e)
  }

  /** A pop hands out the first waiting item, from the row of least id, or nothing when none waits. */
  ghost predicate PopLaw(before: seq<Job>, after: seq<Job>, execution: Bytes, item: Option<Bytes>) {
    && OthersWait(before, after, execution)
    && match item
       case None => QueueOf(before, execution) == [] && after == before
       case Some(x) =>
         && QueueOf(before, execution) == [x] + QueueOf(after, execution)
         && exists i :: 0 <= i < |before| && before[i].owner == execution && before[i].value == x
              && after == before[..i] + before[i + 1..]
              && forall j :: 0 <= j < |before| && before[j].owner == execution ==> before[i].id <= before[j].id
  }

  lemma PopObeysLaw(t: Tables, execution: Bytes)
    requires Valid(t)
    ensures var (after, reply) := Step(t, QueuePop(execution));
            reply.Item? && PopLaw(t.queue, after.queue, execution, reply.item)
  {
    hide Step, OldestJob, Where, Valid;
    var after := Step(t, QueuePop(execution)).0;
    PopRemoves(t, execution);
    forall e ensures e != execution ==> QueueOf(after.queue, e) == QueueOf(t.queue, e) {
      QueuesAreSeparate(t, QueuePop(execution), e);
    }
    QueuesAreSeparate(t, QueuePop(execution), execution);
    if OldestJob(t.queue, execution).Some? {
      PopClaimsLeastId(t, execution);
      QueueOfWithoutOldest(t.queue, execution, execution);
      QueueStarts(t.queue, execution);
    } else {
      NoneWaiting(t.queue, execution);
    }
  }

  lemma QueueStarts(queue: seq<Job>, execution: Bytes)
    requires OldestJob(queue, execution).Some?
    ensures var i := OldestJob(queue, execution).value;
            QueueOf(queue, execution) == [queue[i].value] + QueueOf(queue[..i] + queue[i + 1..], execution)
  {
    hide Where, OldestJob;
    QueueOfWithoutOldest(queue, execution, execution);
    var q := QueueOf(queue, execution);
    assert q == [q[0]] + q[1..];
  }

  /** A clear leaves nothing waiting for the execution and counts what was. */
  ghost predicate QueueClearLaw(before: seq<Job>, after: seq<Job>, execution: Bytes, count: int) {
    QueueOf(after, execution) == [] && OthersWait(before, after, execution) && count == |QueueOf(before, execution)|
  }

  lemma QueueClearObeysLaw(t: Tables, execution: Bytes)
    ensures var (after, reply) := Step(t, QueueClear(execution));
            reply.Count? && QueueClearLaw(t.queue, after.queue, execution, reply.count)
  {
    hide Step, Where;
    ClearRemoves(t, execution);
    forall e ensures e != execution ==> QueueOf(Step(t, QueueClear(execution)).0.queue, e) == QueueOf(t.queue, e) {
      QueuesAreSeparate(t, QueueClear(execution), e);
    }
    QueuesAreSeparate(t, QueueClear(execution), execution);
  }

  // ---- Key-value rows --------------------------------------------------------------------------

  /** The last of the pairs with a key. */
  predicate IsLastWith(pairs: seq<Pair>, key: Bytes, i: int) {
    0 <= i < |pairs| && pairs[i].key == key && forall j :: i < j < |pairs| ==> pairs[j].key != key
  }

  /** After a put each key of the batch holds its last value there, and every other row what it held. */
  ghost predicate PutLaw(before: map<RowKey, Bytes>, after: map<RowKey, Bytes>, scope: Bytes, ns: Bytes,
                         pairs: seq<Pair>, at: RowKey) {
    && (at.scope == scope && at.ns == ns ==>
          forall i :: IsLastWith(pairs, at.key, i) ==> at in after && after[at] == pairs[i].value)
    && (at.scope != scope || at.ns != ns || (forall i :: 0 <= i < |pairs| ==> pairs[i].key != at.key) ==>
          Keeps(before, after, at, true))
  }

  lemma LastWithStep(pairs: seq<Pair>, key: Bytes)
    requires pairs != []
    ensures var init := pairs[..|pairs| - 1];
            forall i :: IsLastWith(pairs, key, i) <==>
              if pairs[|pairs| - 1].key == key then i == |pairs| - 1 else IsLastWith(init, key, i)
  {
  }

  lemma PutStep(state: map<RowKey, Bytes>, scope: Bytes, ns: Bytes, pairs: seq<Pair>, at: RowKey)
    requires pairs != []
    ensures var last, after := pairs[|pairs| - 1], PutAll(state, scope, ns, pairs);
            if at == RowKey(scope, ns, last.key) then at in after && after[at] == last.value
            else Keeps(PutAll(state, scope, ns, pairs[..|pairs| - 1]), after, at, true)
  {
  }

  lemma SinglePut(before: map<RowKey, Bytes>, mid: map<RowKey, Bytes>, after: map<RowKey, Bytes>, scope: Bytes,
                  ns: Bytes, pairs: seq<Pair>, at: RowKey)
    requires pairs != [] && PutLaw(before, mid, scope, ns, pairs[..|pairs| - 1], at)
    requires var last := pairs[|pairs| - 1];
             if at == RowKey(scope, ns, last.key) then at in after && after[at] == last.value
             else Keeps(mid, after, at, true)
    ensures PutLaw(before, after, scope, ns, pairs, at)
  {
    LastWithStep(pairs, at.key);
    hide IsLastWith;
    var init, last := pairs[..|pairs| - 1], pairs[|pairs| - 1];
    assert forall i :: 0 <= i < |init| ==> init[i] == pairs[i];
    assert at == RowKey(at.scope, at.ns, at.key);
    assert forall i :: IsLastWith(init, at.key, i) ==> 0 <= i < |init| by {
      IndexOfLast(init, at.key);
    }
  }

  lemma IndexOfLast(pairs: seq<Pair>, key: Bytes)
    ensures forall i :: IsLastWith(pairs, key, i) ==> 0 <= i < |pairs|
  {
  }

  lemma {:induction false} PutStores(state: map<RowKey, Bytes>, scope: Bytes, ns: Bytes, pairs: seq<Pair>, at: RowKey)
    ensures PutLaw(state, PutAll(state, scope, ns, pairs), scope, ns, pairs, at)
  {
    if pairs != [] {
      var init := pairs[..|pairs| - 1];
      PutStores(state, scope, ns, init, at);
      PutStep(state, scope, ns, pairs, at);
      hide PutLaw, PutAll, Keeps;
      SinglePut(state, PutAll(state, scope, ns, init), PutAll(state, scope, ns, pairs), scope, ns, pairs, at);
    }
  }

  /** A drain takes exactly the namespace: what it answers and what it leaves are together what there was. */
  ghost predicate DrainLaw(before: map<RowKey, Bytes>, after: map<RowKey, Bytes>, scope: Bytes, ns: Bytes,
                           taken: map<Bytes, Bytes>, at: RowKey) {
    if at.scope == scope && at.ns == ns
    then at !in after && (at in before <==> at.key in taken) && (at in before ==> before[at] == taken[at.key])
    else Keeps(before, after, at, true)
  }

  lemma DrainConserves(t: Tables, scope: Bytes, ns: Bytes, at: RowKey)
    ensures var (after, reply) := Step(t, Drain(scope, ns));
            && reply.Taken? && DrainLaw(t.state, after.state, scope, ns, reply.taken, at)
            && after == t.(state := after.state)
  {
    assert at == RowKey(at.scope, at.ns, at.key);
  }

  lemma RemovedAreCounted<V>(m: map<RowKey, V>, kept: map<RowKey, V>)
    requires kept.Keys <= m.Keys
    ensures |m| - |kept| == |set at <- m.Keys | at !in kept|
  {
    var gone := set at <- m.Keys | at !in kept;
    assert m.Keys == gone + kept.Keys && gone !! kept.Keys;
    assert |gone + kept.Keys| == |gone| + |kept.Keys|;
    assert |m.Keys| == |m| && |kept.Keys| == |kept|;
  }

  /** The rows a delete names: the given keys, or the bytewise range, of its namespace. */
  ghost predicate Named(scope: Bytes, ns: Bytes, only: Option<seq<Bytes>>, range: Range, at: RowKey) {
    at.scope == scope && at.ns == ns && if only.Some? then at.key in only.value else Within(range, at.key)
  }

  /** A delete removes exactly the rows it names, and counts them; keys with a range change nothing. */
  ghost predicate DeleteLaw(before: map<RowKey, Bytes>, after: map<RowKey, Bytes>, scope: Bytes, ns: Bytes,
                            only: Option<seq<Bytes>>, range: Range, count: Option<int>, at: RowKey) {
    if only.Some? && (range.start.Some? || range.end.Some?) then after == before && count == None
    else
      && Keeps(before, after, at, !Named(scope, ns, only, range, at))
      && count == Some(|set a <- before.Keys | Named(scope, ns, only, range, a)|)
  }

  lemma DeleteRemovesExactly(t: Tables, scope: Bytes, ns: Bytes, only: Option<seq<Bytes>>, range: Range, at: RowKey)
    ensures var (after, reply) := Step(t, Delete(scope, ns, only, range));
            && (reply.Count? || reply.Invalid?)
            && DeleteLaw(t.state, after.state, scope, ns, only, range, if reply.Count? then Some(reply.count) else None,
                         at)
            && after == t.(state := after.state)
  {
    hide Within, InRange;
    forall a: RowKey ensures Deletes(scope, ns, only, range, a) <==> Named(scope, ns, only, range, a) {
      InRangeIsWithin(range, a.key);
    }
    hide Deletes, Named;
    if !(only.Some? && (range.start.Some? || range.end.Some?)) {
      var after := Step(t, Delete(scope, ns, only, range)).0;
      RemovedAreCounted(t.state, after.state);
      assert (set a <- t.state.Keys | a !in after.state)
             == (set a <- t.state.Keys | Named(scope, ns, only, range, a));
    }
  }

  // ---- Whole scopes ----------------------------------------------------------------------------

  function In(scope: Bytes): LogRow -> bool { (r: LogRow) => r.owner.scope == scope }

  /** A clear leaves no row, entry or counter of the scope, everything of other scopes, and the whole queue. */
  ghost predicate ClearLaw(before: Tables, after: Tables, scope: Bytes, at: RowKey, afterId: int) {
    && after.queue == before.queue && after.lastLogId == before.lastLogId && after.lastJobId == before.lastJobId
    && Keeps(before.state, after.state, at, at.scope != scope)
    && Keeps(before.counters, after.counters, at, at.scope != scope)
    && (forall r :: r in after.log <==> r in before.log && r.owner.scope != scope)
    && EntriesAfter(after.log, at, afterId) == if at.scope == scope then [] else EntriesAfter(before.log, at, afterId)
  }

  /** The row is what it was, or gone. */
  ghost predicate Keeps<V>(before: map<RowKey, V>, after: map<RowKey, V>, at: RowKey, kept: bool) {
    && (at in after <==> at in before && kept)
    && (at in after ==> after[at] == before[at])
  }

  lemma ClearRemovesTheScope(t: Tables, scope: Bytes, at: RowKey, afterId: int)
    ensures ClearLaw(t, Step(t, ClearScope(scope)).0, scope, at, afterId)
  {
    hide Where;
    LogOutOf(t.log, scope);
    if at.scope == scope {
      WhereSelects(t.log, OutOf(scope));
      WhereNone(Where(t.log, OutOf(scope)), Beyond(at, afterId));
    } else {
      WhereTwice(t.log, OutOf(scope), Beyond(at, afterId), Beyond(at, afterId));
    }
  }

  lemma LogOutOf(log: seq<LogRow>, scope: Bytes)
    ensures forall r :: r in Where(log, OutOf(scope)) <==> r in log && r.owner.scope != scope
  {
    hide Where;
    WhereSelects(log, OutOf(scope));
    forall r | r in log && r.owner.scope != scope ensures r in Where(log, OutOf(scope)) {
      WhereFinds(log, OutOf(scope), r);
    }
  }

  lemma OutsideCount<V>(rows: map<RowKey, V>, scope: Bytes)
    ensures |rows| - |OutsideScope(rows, scope)| == |set at <- rows.Keys | at.scope == scope|
  {
    RemovedAreCounted(rows, OutsideScope(rows, scope));
    assert (set at <- rows.Keys | at !in OutsideScope(rows, scope)) == (set at <- rows.Keys | at.scope == scope);
  }

  /** And it counts what it removes from all three tables. */
  lemma ClearCounts(t: Tables, scope: Bytes)
    ensures Step(t, ClearScope(scope)).1
            == Count(|set at <- t.state.Keys | at.scope == scope| + |Where(t.log, In(scope))|
                     + |set at <- t.counters.Keys | at.scope == scope|)
  {
    hide Where, OutsideScope;
    OutsideCount(t.state, scope);
    OutsideCount(t.counters, scope);
    WhereSplits(t.log, OutOf(scope), In(scope));
  }

  // ---- The log and the counters ----------------------------------------------------------------

  /**
   An append adds one entry after all others of its key, under an ordinal above every one in use, and none
   elsewhere.
   */
  ghost predicate AppendLaw(before: seq<LogRow>, after: seq<LogRow>, at: RowKey, item: Bytes, id: int, other: RowKey,
                            afterId: int) {
    && (forall i :: 0 <= i < |before| ==> before[i].id < id) && after == before + [Row(id, at, item)]
    && EntriesAfter(after, other, afterId)
       == EntriesAfter(before, other, afterId) + if other == at && afterId < id then [Entry(id, item)] else []
  }

  lemma AppendObeysLaw(t: Tables, at: RowKey, item: Bytes, other: RowKey, afterId: int)
    requires Valid(t)
    ensures var (after, reply) := Step(t, Append(at, item));
            reply.Ordinal? && AppendLaw(t.log, after.log, at, item, reply.id, other, afterId)
  {
    hide Where;
    var row := Row(t.lastLogId + 1, at, item);
    WhereAppend(t.log, [row], Beyond(other, afterId));
    WhereOne(row, Beyond(other, afterId));
  }

  /**
   A page of the log lists entries of the key in order; what it leaves out comes later, and only because of the
   limit.
   */
  ghost predicate LogPageLaw(log: seq<LogRow>, at: RowKey, afterId: int, limit: Option<int>, page: seq<Entry>) {
    && (forall i, j :: 0 <= i < j < |page| ==> page[i].id < page[j].id)
    && (forall i :: 0 <= i < |page| ==> afterId < page[i].id && Row(page[i].id, at, page[i].value) in log)
    && (limit.Some? && limit.value >= 0 ==> |page| <= limit.value)
    && (forall r <- log | r.owner == at && r.id > afterId ::
          Entry(r.id, r.value) in page || (limit == Some(|page|) && forall i :: 0 <= i < |page| ==> page[i].id < r.id))
  }

  lemma {:induction false} WhereFinds<T>(s: seq<T>, p: T -> bool, x: T)
    requires x in s && p(x)
    ensures x in Where(s, p)
  {
    if x in s[..|s| - 1] {
      WhereFinds(s[..|s| - 1], p, x);
    } else {
      assert s == s[..|s| - 1] + [s[|s| - 1]];
    }
  }

  lemma SelectedEntries(log: seq<LogRow>, lastLogId: int, at: RowKey, afterId: int)
    requires Ascends(log, lastLogId)
    ensures var all := EntriesAfter(log, at, afterId);
            && (forall i, j :: 0 <= i < j < |all| ==> all[i].id < all[j].id)
            && (forall i :: 0 <= i < |all| ==> afterId < all[i].id && Row(all[i].id, at, all[i].value) in log)
            && (forall r <- log | r.owner == at && r.id > afterId :: Entry(r.id, r.value) in all)
  {
    hide Where;
    var rows := Where(log, Beyond(at, afterId));
    WhereAscends(log, lastLogId, Beyond(at, afterId));
    WhereSelects(log, Beyond(at, afterId));
    var all := EntriesOf(rows);
    forall i | 0 <= i < |all| ensures afterId < all[i].id && Row(all[i].id, at, all[i].value) in log {
      assert rows[i] == Row(all[i].id, at, all[i].value);
    }
    forall r <- log | r.owner == at && r.id > afterId ensures Entry(r.id, r.value) in all {
      WhereFinds(log, Beyond(at, afterId), r);
      var i :| 0 <= i < |rows| && rows[i] == r;
      assert all[i] == Entry(r.id, r.value);
    }
  }

  lemma LogPageObeysLaw(t: Tables, at: RowKey, afterId: int, limit: Option<int>)
    requires Valid(t)
    ensures LogPageLaw(t.log, at, afterId, limit, Limited(EntriesAfter(t.log, at, afterId), limit))
  {
    hide EntriesAfter;
    SelectedEntries(t.log, t.lastLogId, at, afterId);
    hide Ascends;
    var all := EntriesAfter(t.log, at, afterId);
    var page := Limited(all, limit);
    assert page <= all;
    forall r <- t.log | r.owner == at && r.id > afterId
      ensures Entry(r.id, r.value) in page
              || (limit == Some(|page|) && forall i :: 0 <= i < |page| ==> page[i].id < r.id)
    {
      var i :| 0 <= i < |all| && all[i] == Entry(r.id, r.value);
      if i < |page| {
        assert page[i] == Entry(r.id, r.value);
      }
    }
  }

  /** An add moves one counter by its amount, from zero if it was absent, and answers where it is now. */
  ghost predicate AddLaw(before: map<RowKey, int>, after: map<RowKey, int>, at: RowKey, delta: int, n: int,
                         other: RowKey) {
    && n == (if at in before then before[at] else 0) + delta
    && (if other == at then at in after && after[at] == n else Keeps(before, after, other, true))
  }
}
