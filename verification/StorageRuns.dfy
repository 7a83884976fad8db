/** What holds over every run of the store, however the workers' operations interleave. */
module StorageRuns {
  import opened Common
  import opened Bytes
  import opened Storage

  // ---- Selections ------------------------------------------------------------------------------

  lemma {:induction false} WhereAppend<T>(a: seq<T>, b: seq<T>, p: T -> bool)
    ensures Where(a + b, p) == Where(a, p) + Where(b, p)
  {
    if b == [] {
      assert a + b == a;
    } else {
      WhereAppend(a, b[..|b| - 1], p);
      assert (a + b)[..|a + b| - 1] == a + b[..|b| - 1];
    }
  }

  lemma WhereOne<T>(x: T, p: T -> bool)
    ensures Where([x], p) == if p(x) then [x] else []
  {
    assert [x][..0] == [];
  }

  lemma {:induction false} WhereNone<T>(s: seq<T>, p: T -> bool)
    requires forall i :: 0 <= i < |s| ==> !p(s[i])
    ensures Where(s, p) == []
  {
    if s != [] {
      WhereNone(s[..|s| - 1], p);
    }
  }

  lemma {:induction false} WhereAll<T>(s: seq<T>, p: T -> bool)
    requires forall i :: 0 <= i < |s| ==> p(s[i])
    ensures Where(s, p) == s
  {
    if s != [] {
      WhereAll(s[..|s| - 1], p);
    }
  }

  lemma {:induction false} WhereTwice<T>(s: seq<T>, p: T -> bool, q: T -> bool, both: T -> bool)
    requires forall x :: both(x) <==> p(x) && q(x)
    ensures Where(Where(s, p), q) == Where(s, both)
  {
    if s == [] {
      assert Where(s, p) == [];
    } else {
      var init, last := s[..|s| - 1], s[|s| - 1];
      WhereTwice(init, p, q, both);
      assert Where(s, p) == if p(last) then Where(init, p) + [last] else Where(init, p);
      WhereAppend(Where(init, p), [last], q);
      WhereOne(last, q);
    }
  }

  lemma SplitAt<T>(s: seq<T>, i: nat)
    requires i < |s|
    ensures s == s[..i] + [s[i]] + s[i + 1..]
  {
  }

  lemma WhereAround<T>(a: seq<T>, x: T, b: seq<T>, p: T -> bool)
    ensures Where(a + [x] + b, p) == Where(a, p) + (if p(x) then [x] else []) + Where(b, p)
    ensures Where(a + b, p) == Where(a, p) + Where(b, p)
  {
    hide Where;
    WhereAppend(a + [x], b, p);
    WhereAppend(a, [x], p);
    WhereOne(x, p);
    WhereAppend(a, b, p);
  }

  lemma {:induction false} WhereSelects<T>(s: seq<T>, p: T -> bool)
    ensures |Where(s, p)| <= |s|
    ensures forall i :: 0 <= i < |Where(s, p)| ==> Where(s, p)[i] in s && p(Where(s, p)[i])
  {
    if s != [] {
      WhereSelects(s[..|s| - 1], p);
    }
  }

  lemma {:induction false} WhereSplits<T>(s: seq<T>, p: T -> bool, q: T -> bool)
    requires forall x :: p(x) <==> !q(x)
    ensures |Where(s, p)| + |Where(s, q)| == |s|
  {
    if s != [] {
      WhereSplits(s[..|s| - 1], p, q);
    }
  }

  // ---- Row ids ---------------------------------------------------------------------------------

  /** Row ids ascend and none is above the high-water mark of the column. */
  ghost predicate Ascends<K>(rows: seq<Row<K>>, last: int) {
    && (forall i, j :: 0 <= i < j < |rows| ==> rows[i].id < rows[j].id)
    && (forall i :: 0 <= i < |rows| ==> 0 < rows[i].id <= last)
    && 0 <= last
  }

  ghost predicate Valid(t: Tables) { Ascends(t.log, t.lastLogId) && Ascends(t.queue, t.lastJobId) }

  lemma {:induction false} WhereAscends<K>(rows: seq<Row<K>>, last: int, p: Row<K> -> bool)
    requires Ascends(rows, last)
    ensures Ascends(Where(rows, p), last)
    ensures forall i :: 0 <= i < |Where(rows, p)| ==> rows != [] && Where(rows, p)[i].id <= rows[|rows| - 1].id
  {
    if rows != [] {
      var init, row := rows[..|rows| - 1], rows[|rows| - 1];
      WhereAscends(init, last, p);
      assert init != [] ==> rows[|rows| - 2].id < row.id;
    }
  }

  lemma LogStaysValid(t: Tables, op: Op)
    requires Ascends(t.log, t.lastLogId)
    ensures Ascends(Step(t, op).0.log, Step(t, op).0.lastLogId)
    ensures Step(t, op).0.lastLogId == t.lastLogId + if op.Append? then 1 else 0
  {
    hide PutAll, ScanOf, EntriesAfter, QueueOf, Where, Deletes, Namespace, GetOf, CounterOf, Pushed, OldestJob;
    if op.ClearScope? {
      WhereAscends(t.log, t.lastLogId, OutOf(op.scope));
    }
  }

  lemma QueueStaysValid(t: Tables, op: Op)
    requires Ascends(t.queue, t.lastJobId)
    ensures Ascends(Step(t, op).0.queue, Step(t, op).0.lastJobId)
  {
    hide PutAll, ScanOf, EntriesAfter, QueueOf, Where, Deletes, Namespace, GetOf, CounterOf;
    if op.QueueClear? {
      WhereAscends(t.queue, t.lastJobId, NotOf(op.execution));
    }
  }

  lemma StepKeepsValid(t: Tables, op: Op)
    requires Valid(t)
    ensures Valid(Step(t, op).0)
    ensures Step(t, op).0.lastLogId == t.lastLogId + if op.Append? then 1 else 0
  {
    hide Step, Ascends;
    LogStaysValid(t, op);
    QueueStaysValid(t, op);
  }

  lemma {:induction false} RunIsValid(ops: seq<Op>)
    ensures Valid(Run(ops))
  {
    hide Step;
    if ops != [] {
      RunIsValid(ops[..|ops| - 1]);
      StepKeepsValid(Run(ops[..|ops| - 1]), ops[|ops| - 1]);
    }
  }

  /** The job a pop claims has the least id of its execution. */
  lemma PopClaimsLeastId(t: Tables, execution: Bytes)
    requires Valid(t) && OldestJob(t.queue, execution).Some?
    ensures var i := OldestJob(t.queue, execution).value;
            forall j :: 0 <= j < |t.queue| && t.queue[j].owner == execution ==> t.queue[i].id <= t.queue[j].id
  {
  }

  // ---- The queue is first in, first out per execution ------------------------------------------

  lemma ItemsOfAppend(a: seq<Job>, b: seq<Job>)
    ensures ItemsOf(a + b) == ItemsOf(a) + ItemsOf(b)
  {
  }

  lemma ItemsOfPushed(lastJobId: int, execution: Bytes, items: seq<Bytes>)
    ensures ItemsOf(Pushed([], lastJobId, execution, items)) == items
  {
  }

  lemma QueueOfPushed(queue: seq<Job>, lastJobId: int, execution: Bytes, items: seq<Bytes>, other: Bytes)
    ensures QueueOf(Pushed(queue, lastJobId, execution, items), other)
            == QueueOf(queue, other) + if other == execution then items else []
  {
    hide Where, ItemsOf;
    var added := Pushed([], lastJobId, execution, items);
    assert Pushed(queue, lastJobId, execution, items) == queue + added;
    WhereAppend(queue, added, Of(other));
    ItemsOfAppend(Where(queue, Of(other)), Where(added, Of(other)));
    if other == execution {
      WhereAll(added, Of(other));
      ItemsOfPushed(lastJobId, execution, items);
    } else {
      WhereNone(added, Of(other));
      assert Pushed([], lastJobId, execution, []) == [];
      ItemsOfPushed(lastJobId, execution, []);
    }
  }

  lemma ItemsOfRest(row: Job, rows: seq<Job>)
    ensures ItemsOf([row] + rows)[1..] == ItemsOf(rows)
  {
  }

  lemma QueueOfWithoutOldest(queue: seq<Job>, execution: Bytes, other: Bytes)
    requires OldestJob(queue, execution).Some?
    ensures var i := OldestJob(queue, execution).value;
            && Where(queue, Of(execution)) != [] && Where(queue, Of(execution))[0] == queue[i]
            && QueueOf(queue[..i] + queue[i + 1..], other)
               == if other == execution then QueueOf(queue, execution)[1..] else QueueOf(queue, other)
  {
    hide Where, OldestJob;
    var i := OldestJob(queue, execution).value;
    var before, after := queue[..i], queue[i + 1..];
    SplitAt(queue, i);
    WhereNone(before, Of(execution));
    WhereAround(before, queue[i], after, Of(execution));
    WhereAround(before, queue[i], after, Of(other));
    assert Where(queue, Of(execution)) == [queue[i]] + Where(after, Of(execution));
    ItemsOfRest(queue[i], Where(after, Of(execution)));
  }

  lemma QueueOfCleared(queue: seq<Job>, execution: Bytes, other: Bytes)
    ensures QueueOf(Where(queue, NotOf(execution)), other) == if other == execution then [] else QueueOf(queue, other)
    ensures |queue| - |Where(queue, NotOf(execution))| == |QueueOf(queue, execution)|
  {
    hide Where;
    WhereSplits(queue, Of(execution), NotOf(execution));
    if other == execution {
      WhereSelects(queue, NotOf(execution));
      WhereNone(Where(queue, NotOf(execution)), Of(other));
    } else {
      WhereTwice(queue, NotOf(execution), Of(other), Of(other));
    }
  }

  /** What one operation does to the waiting items of any one execution. */
  function QueueAfter(waiting: seq<Bytes>, op: Op, execution: Bytes): (seq<Bytes>, Option<Reply>) {
    match op
    case QueuePush(e, items) => if e == execution then (waiting + items, Some(Count(|items|))) else (waiting, None)
    case QueuePop(e) =>
      if e != execution then (waiting, None)
      else if waiting == [] then (waiting, Some(Item(None)))
      else (waiting[1..], Some(Item(Some(waiting[0]))))
    case QueueClear(e) => if e == execution then ([], Some(Count(|waiting|))) else (waiting, None)
    case _ => (waiting, None)
  }

  lemma QueueUntouched(t: Tables, op: Op)
    requires !op.QueuePush? && !op.QueuePop? && !op.QueueClear?
    ensures Step(t, op).0.queue == t.queue && Step(t, op).0.lastJobId == t.lastJobId
  {
    hide PutAll, ScanOf, EntriesAfter, Where, Deletes, Namespace, GetOf, CounterOf, OutsideScope;
  }

  lemma PushAdds(t: Tables, execution: Bytes, items: seq<Bytes>)
    ensures Step(t, QueuePush(execution, items)).0.queue == Pushed(t.queue, t.lastJobId, execution, items)
    ensures Step(t, QueuePush(execution, items)).1 == Count(|items|)
  {
    hide Pushed;
  }

  lemma PopRemoves(t: Tables, execution: Bytes)
    ensures var i := OldestJob(t.queue, execution);
            Step(t, QueuePop(execution))
            == if i.None? then (t, Item(None))
               else (t.(queue := t.queue[..i.value] + t.queue[i.value + 1..]), Item(Some(t.queue[i.value].value)))
  {
    hide OldestJob;
  }

  lemma ClearRemoves(t: Tables, execution: Bytes)
    ensures var kept := Where(t.queue, NotOf(execution));
            Step(t, QueueClear(execution)) == (t.(queue := kept), Count(|t.queue| - |kept|))
  {
    hide Where;
  }

  lemma NoneWaiting(queue: seq<Job>, execution: Bytes)
    requires OldestJob(queue, execution).None?
    ensures QueueOf(queue, execution) == []
  {
    WhereNone(queue, Of(execution));
  }

  /** The shared table behaves as one plain queue per execution. */
  lemma QueuesAreSeparate(t: Tables, op: Op, execution: Bytes)
    ensures var (waiting, reply) := QueueAfter(QueueOf(t.queue, execution), op, execution);
            && QueueOf(Step(t, op).0.queue, execution) == waiting
            && (reply.Some? ==> Step(t, op).1 == reply.value)
  {
    hide Step, OldestJob, Where, Pushed;
    if op.QueuePush? {
      PushAdds(t, op.execution, op.items);
      QueueOfPushed(t.queue, t.lastJobId, op.execution, op.items, execution);
    } else if op.QueuePop? {
      PopRemoves(t, op.execution);
      if OldestJob(t.queue, op.execution).Some? {
        QueueOfWithoutOldest(t.queue, op.execution, execution);
      } else {
        NoneWaiting(t.queue, op.execution);
      }
    } else if op.QueueClear? {
      ClearRemoves(t, op.execution);
      QueueOfCleared(t.queue, op.execution, execution);
    } else {
      QueueUntouched(t, op);
    }
  }

  /** Items pushed for an execution since its queue was last cleared. */
  function PushedSince(ops: seq<Op>, execution: Bytes): seq<Bytes> {
    if ops == [] then []
    else
      var earlier := PushedSince(ops[..|ops| - 1], execution);
      match ops[|ops| - 1]
      case QueuePush(e, items) => if e == execution then earlier + items else earlier
      case QueueClear(e) => if e == execution then [] else earlier
      case _ => earlier
  }

  /** Items handed out to workers for an execution since its queue was last cleared. */
  function PoppedSince(ops: seq<Op>, execution: Bytes): seq<Bytes> {
    if ops == [] then []
    else
      var earlier := PoppedSince(ops[..|ops| - 1], execution);
      match ops[|ops| - 1]
      case QueuePop(e) =>
        (match Step(Run(ops[..|ops| - 1]), ops[|ops| - 1]).1
         case Item(Some(item)) => if e == execution then earlier + [item] else earlier
         case _ => earlier)
      case QueueClear(e) => if e == execution then [] else earlier
      case _ => earlier
  }

  /** Between clears, popped items followed by waiting items are the pushed items in order. */
  lemma {:induction false} QueueConserved(ops: seq<Op>, execution: Bytes)
    ensures PoppedSince(ops, execution) + QueueOf(Run(ops).queue, execution) == PushedSince(ops, execution)
  {
    hide Step;
    if ops != [] {
      var init, last := ops[..|ops| - 1], ops[|ops| - 1];
      QueueConserved(init, execution);
      QueuesAreSeparate(Run(init), last, execution);
    }
  }

  /** The row a pop of the execution removes. */
  function PoppedRow(t: Tables, op: Op, execution: Bytes): Option<Job> {
    if op != QueuePop(execution) then None
    else
      var i :- OldestJob(t.queue, execution);
      Some(t.queue[i])
  }

  /** The ids of the rows handed out for an execution over a whole run, clears included. */
  function PoppedIds(ops: seq<Op>, execution: Bytes): seq<int> {
    if ops == [] then []
    else
      var row := PoppedRow(Run(ops[..|ops| - 1]), ops[|ops| - 1], execution);
      PoppedIds(ops[..|ops| - 1], execution) + if row.Some? then [row.value.id] else []
  }

  ghost predicate AllAbove(queue: seq<Job>, lastJobId: int, execution: Bytes, ids: seq<int>) {
    && (forall i, j :: 0 <= i < |ids| && 0 <= j < |queue| && queue[j].owner == execution ==> ids[i] < queue[j].id)
    && (forall i :: 0 <= i < |ids| ==> ids[i] <= lastJobId)
  }

  lemma PushKeepsAbove(queue: seq<Job>, lastJobId: int, e: Bytes, items: seq<Bytes>, execution: Bytes, ids: seq<int>)
    requires AllAbove(queue, lastJobId, execution, ids)
    ensures AllAbove(Pushed(queue, lastJobId, e, items), lastJobId + |items|, execution, ids)
  {
  }

  lemma ClearKeepsAbove(queue: seq<Job>, lastJobId: int, e: Bytes, execution: Bytes, ids: seq<int>)
    requires AllAbove(queue, lastJobId, execution, ids)
    ensures AllAbove(Where(queue, NotOf(e)), lastJobId, execution, ids)
  {
    hide Where;
    var kept := Where(queue, NotOf(e));
    WhereSelects(queue, NotOf(e));
    forall i, j | 0 <= i < |ids| && 0 <= j < |kept| && kept[j].owner == execution ensures ids[i] < kept[j].id {
      var k :| 0 <= k < |queue| && queue[k] == kept[j];
    }
  }

  lemma PopKeepsAbove(queue: seq<Job>, lastJobId: int, i: nat, execution: Bytes, ids: seq<int>)
    requires AllAbove(queue, lastJobId, execution, ids) && Ascends(queue, lastJobId) && i < |queue|
    requires queue[i].owner == execution ==> forall j :: 0 <= j < |queue| && queue[j].owner == execution ==>
             queue[i].id <= queue[j].id
    ensures var after := queue[..i] + queue[i + 1..];
            AllAbove(after, lastJobId, execution, if queue[i].owner == execution then ids + [queue[i].id] else ids)
  {
    var after := queue[..i] + queue[i + 1..];
    assert forall j :: 0 <= j < |after| ==> after[j] == queue[if j < i then j else j + 1];
  }

  lemma StepKeepsRowsAbove(t: Tables, op: Op, execution: Bytes, ids: seq<int>)
    requires Valid(t) && AllAbove(t.queue, t.lastJobId, execution, ids)
    ensures var row := PoppedRow(t, op, execution);
            AllAbove(Step(t, op).0.queue, Step(t, op).0.lastJobId, execution,
                     ids + if row.Some? then [row.value.id] else [])
    ensures PoppedRow(t, op, execution).Some? ==> forall i :: 0 <= i < |ids| ==>
            ids[i] < PoppedRow(t, op, execution).value.id
  {
    assert forall i, j :: 0 <= i < |ids| && 0 <= j < |t.queue| && t.queue[j].owner == execution ==>
           ids[i] < t.queue[j].id;
    hide Step, Where, OldestJob, AllAbove, Pushed;
    assert ids + [] == ids;
    match op
    case QueuePush(e, items) =>
      PushAdds(t, e, items);
      PushedAbove(t, e, items);
      PushKeepsAbove(t.queue, t.lastJobId, e, items, execution, ids);
    case QueuePop(e) =>
      PopRemoves(t, e);
      if OldestJob(t.queue, e).Some? {
        PopClaimsLeastId(t, e);
        PopKeepsAbove(t.queue, t.lastJobId, OldestJob(t.queue, e).value, execution, ids);
      }
    case QueueClear(e) =>
      ClearRemoves(t, e);
      ClearKeepsAbove(t.queue, t.lastJobId, e, execution, ids);
    case _ => QueueUntouched(t, op);
  }

  lemma PushedAbove(t: Tables, e: Bytes, items: seq<Bytes>)
    ensures Step(t, QueuePush(e, items)).0.lastJobId == t.lastJobId + |items|
  {
    hide Pushed;
  }

  /** Over every run an execution's jobs are handed out in the order of their ids, which is the order they came in. */
  lemma {:induction false} PopsInIdOrder(ops: seq<Op>, execution: Bytes)
    ensures var ids := PoppedIds(ops, execution);
            && (forall i, j :: 0 <= i < j < |ids| ==> ids[i] < ids[j])
            && AllAbove(Run(ops).queue, Run(ops).lastJobId, execution, ids)
  {
    hide Step, PoppedRow, Valid, AllAbove;
    if ops == [] {
      NonePopped(execution);
    } else {
      var init, last := ops[..|ops| - 1], ops[|ops| - 1];
      PopsInIdOrder(init, execution);
      RunIsValid(init);
      StepKeepsRowsAbove(Run(init), last, execution, PoppedIds(init, execution));
    }
  }

  lemma NonePopped(execution: Bytes)
    ensures AllAbove(NO_TABLES.queue, NO_TABLES.lastJobId, execution, [])
  {
  }

  // ---- The log ---------------------------------------------------------------------------------

  /** Ordinals strictly increase over a run, across keys and clears. */
  lemma {:induction false} OrdinalsIncrease(t: Tables, more: seq<Op>, first: Op, second: Op)
    requires Valid(t) && first.Append? && second.Append?
    ensures var later := StepAll(Step(t, first).0, more);
            && Valid(later) && t.lastLogId < later.lastLogId
            && Step(t, first).1 == Ordinal(t.lastLogId + 1)
            && Step(later, second).1 == Ordinal(later.lastLogId + 1)
  {
    hide Valid;
    if more == [] {
      StepKeepsValid(t, first);
    } else {
      OrdinalsIncrease(t, more[..|more| - 1], first, second);
      StepKeepsValid(StepAll(Step(t, first).0, more[..|more| - 1]), more[|more| - 1]);
    }
  }

  /** Moving the cursor to a listed entry drops exactly the entries up to it. */
  lemma CursorCuts(log: seq<LogRow>, lastLogId: int, at: RowKey, afterId: int, k: nat)
    requires Ascends(log, lastLogId) && k < |EntriesAfter(log, at, afterId)|
    ensures EntriesAfter(log, at, EntriesAfter(log, at, afterId)[k].id) == EntriesAfter(log, at, afterId)[k + 1..]
  {
    hide Where;
    var rows := Where(log, Beyond(at, afterId));
    var later := Beyond(at, rows[k].id);
    WhereAscends(log, lastLogId, Beyond(at, afterId));
    WhereSelects(log, Beyond(at, afterId));
    WhereTwice(log, Beyond(at, afterId), later, later);
    assert rows == rows[..k + 1] + rows[k + 1..];
    WhereAppend(rows[..k + 1], rows[k + 1..], later);
    WhereNone(rows[..k + 1], later);
    WhereAll(rows[k + 1..], later);
  }

  /** One round of a reader: what the writers do first, and the limit of its page. */
  datatype Round = Round(writes: seq<Op>, limit: Option<int>)

  datatype Scroll = Scroll(tables: Tables, cursor: int, got: seq<Entry>)

  function StepAll(t: Tables, ops: seq<Op>): Tables {
    if ops == [] then t else Step(StepAll(t, ops[..|ops| - 1]), ops[|ops| - 1]).0
  }

  function PageOf(t: Tables, at: RowKey, cursor: int, limit: Option<int>): seq<Entry> {
    Limited(EntriesAfter(t.log, at, cursor), limit)
  }

  /** A reader that moves its cursor to the last entry of each page, from -1. */
  function Scrolled(t: Tables, at: RowKey, rounds: seq<Round>): Scroll {
    if rounds == [] then Scroll(t, -1, [])
    else
      var before := Scrolled(t, at, rounds[..|rounds| - 1]);
      var round := rounds[|rounds| - 1];
      var now := StepAll(before.tables, round.writes);
      var page := PageOf(now, at, before.cursor, round.limit);
      Scroll(now, if page == [] then before.cursor else page[|page| - 1].id, before.got + page)
  }

  ghost predicate Spares(ops: seq<Op>, scope: Bytes) { ClearScope(scope) !in ops }

  /** Writers that do not clear the scope only add entries, at the end and above every id in use. */
  lemma StepOnlyAppends(t: Tables, op: Op, at: RowKey, afterId: int)
    requires op != ClearScope(at.scope) && afterId <= t.lastLogId
    ensures EntriesAfter(t.log, at, afterId) <= EntriesAfter(Step(t, op).0.log, at, afterId)
  {
    hide PutAll, ScanOf, QueueOf, Where, OldestJob, Pushed, Deletes, Namespace, GetOf, CounterOf;
    match op
    case Append(other, item) =>
      WhereAppend(t.log, [Row(t.lastLogId + 1, other, item)], Beyond(at, afterId));
    case ClearScope(scope) =>
      WhereTwice(t.log, OutOf(scope), Beyond(at, afterId), Beyond(at, afterId));
    case _ =>
  }

  lemma {:induction false} WritersOnlyAppend(t: Tables, ops: seq<Op>, at: RowKey, afterId: int)
    requires Valid(t) && Spares(ops, at.scope) && afterId <= t.lastLogId
    ensures Valid(StepAll(t, ops)) && t.lastLogId <= StepAll(t, ops).lastLogId
    ensures EntriesAfter(t.log, at, afterId) <= EntriesAfter(StepAll(t, ops).log, at, afterId)
  {
    hide Step, Valid, EntriesAfter;
    if ops != [] {
      var init, last := ops[..|ops| - 1], ops[|ops| - 1];
      WritersOnlyAppend(t, init, at, afterId);
      StepKeepsValid(StepAll(t, init), last);
      StepOnlyAppends(StepAll(t, init), last, at, afterId);
    }
  }

  /**
   However writers append between pages and whatever the limits, the entries a reader has got, followed by
   those still after its cursor, are the whole log of the key: each entry once, in append order.
   */
  lemma {:induction false} ScrollingReadsEachEntryOnce(t: Tables, at: RowKey, rounds: seq<Round>)
    requires Valid(t) && forall r <- rounds :: Spares(r.writes, at.scope)
    ensures var s := Scrolled(t, at, rounds);
            && Valid(s.tables) && s.cursor <= s.tables.lastLogId
            && s.got + EntriesAfter(s.tables.log, at, s.cursor) == EntriesAfter(s.tables.log, at, -1)
            && (s.got == [] ==> s.cursor == -1)
            && (s.got != [] ==> s.got[|s.got| - 1].id == s.cursor)
  {
    hide StepAll, EntriesAfter, Valid, PageOf;
    IdsArePositive(t);
    if rounds == [] {
      assert Scrolled(t, at, rounds) == Scroll(t, -1, []);
    } else {
      var before := Scrolled(t, at, rounds[..|rounds| - 1]);
      var round := rounds[|rounds| - 1];
      ScrollingReadsEachEntryOnce(t, at, rounds[..|rounds| - 1]);
      assert Spares(round.writes, at.scope);
      NextPage(before, at, round);
    }
  }

  lemma IdsArePositive(t: Tables)
    requires Valid(t)
    ensures 0 <= t.lastLogId
  {
  }

  lemma NextPage(before: Scroll, at: RowKey, round: Round)
    requires Valid(before.tables) && Spares(round.writes, at.scope) && before.cursor <= before.tables.lastLogId
    requires before.got + EntriesAfter(before.tables.log, at, before.cursor) == EntriesAfter(before.tables.log, at, -1)
    requires before.got == [] ==> before.cursor == -1
    requires before.got != [] ==> before.got[|before.got| - 1].id == before.cursor
    ensures var now := StepAll(before.tables, round.writes);
            var page := PageOf(now, at, before.cursor, round.limit);
            var cursor := if page == [] then before.cursor else page[|page| - 1].id;
            && Valid(now) && cursor <= now.lastLogId
            && before.got + page + EntriesAfter(now.log, at, cursor) == EntriesAfter(now.log, at, -1)
  {
    hide StepAll, EntriesAfter, Valid;
    var now := StepAll(before.tables, round.writes);
    var page := PageOf(now, at, before.cursor, round.limit);
    var left := EntriesAfter(now.log, at, before.cursor);
    GotIsKept(before, at, round);
    if page != [] {
      CursorCutsValid(now, at, before.cursor, |page| - 1);
      assert left == page + left[|page|..];
    }
  }

  /** Writers leave what the reader has got at the front of the log. */
  lemma GotIsKept(before: Scroll, at: RowKey, round: Round)
    requires Valid(before.tables) && Spares(round.writes, at.scope) && before.cursor <= before.tables.lastLogId
    requires before.got + EntriesAfter(before.tables.log, at, before.cursor) == EntriesAfter(before.tables.log, at, -1)
    requires before.got == [] ==> before.cursor == -1
    requires before.got != [] ==> before.got[|before.got| - 1].id == before.cursor
    ensures var now := StepAll(before.tables, round.writes);
            && Valid(now) && before.cursor <= now.lastLogId
            && before.got + EntriesAfter(now.log, at, before.cursor) == EntriesAfter(now.log, at, -1)
  {
    hide StepAll, EntriesAfter, Valid;
    var now := StepAll(before.tables, round.writes);
    var was, all := EntriesAfter(before.tables.log, at, -1), EntriesAfter(now.log, at, -1);
    IdsArePositive(before.tables);
    WritersOnlyAppend(before.tables, round.writes, at, -1);
    if before.got != [] {
      var k := |before.got| - 1;
      PrefixesNest(before.got, was, all);
      CursorCutsValid(now, at, -1, k);
    }
  }

  lemma PrefixesNest<T>(a: seq<T>, b: seq<T>, c: seq<T>)
    requires a <= b <= c && a != []
    ensures c[..|a|] == a && c == a + c[|a|..] && c[|a| - 1] == a[|a| - 1]
  {
  }

  lemma CursorCutsValid(t: Tables, at: RowKey, afterId: int, k: nat)
    requires Valid(t) && k < |EntriesAfter(t.log, at, afterId)|
    ensures EntriesAfter(t.log, at, EntriesAfter(t.log, at, afterId)[k].id) == EntriesAfter(t.log, at, afterId)[k + 1..]
    ensures EntriesAfter(t.log, at, afterId)[k].id <= t.lastLogId
  {
    CursorCuts(t.log, t.lastLogId, at, afterId, k);
    WhereAscends(t.log, t.lastLogId, Beyond(at, afterId));
  }
}
