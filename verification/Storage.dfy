/**
 The shared function store as one set of tables: key-value rows, an append log, a work queue and counters.
 `Step` is what each operation does to the tables and what it answers.
 */
module Storage {
  import opened Common
  import opened Bytes

  datatype RowKey = RowKey(scope: Bytes, ns: Bytes, key: Bytes)
  /** A row of the log or of the queue. */
  datatype Row<+K> = Row(id: int, owner: K, value: Bytes)
  type LogRow = Row<RowKey>
  type Job = Row<Bytes>
  datatype Pair = Pair(key: Bytes, value: Bytes)
  datatype Entry = Entry(id: int, value: Bytes)

  /** `lastLogId` and `lastJobId` are the high-water marks of the two AUTOINCREMENT columns. */
  datatype Tables = Tables(
    state: map<RowKey, Bytes>,
    log: seq<LogRow>,
    lastLogId: int,
    queue: seq<Job>,
    lastJobId: int,
    counters: map<RowKey, int>)

  const NO_TABLES := Tables(map[], [], 0, [], 0, map[])

  /** `[start, end)`, either side open. */
  datatype Range = Range(start: Option<Bytes>, end: Option<Bytes>)

  datatype Op =
    | QueuePush(execution: Bytes, items: seq<Bytes>)
    | QueuePop(execution: Bytes)
    | QueueClear(execution: Bytes)
    | GetMany(scope: Bytes, ns: Bytes, keys: seq<Bytes>)
    | PutMany(scope: Bytes, ns: Bytes, pairs: seq<Pair>)
    | Scan(scope: Bytes, ns: Bytes, range: Range, reverse: bool, limit: Option<int>)
    | Drain(scope: Bytes, ns: Bytes)
    | Delete(scope: Bytes, ns: Bytes, only: Option<seq<Bytes>>, range: Range)
    | ClearScope(scope: Bytes)
    | Append(at: RowKey, item: Bytes)
    | LogScan(at: RowKey, afterId: int, limit: Option<int>)
    | CounterGet(at: RowKey)
    | CounterAdd(at: RowKey, delta: int)
    | CounterSet(at: RowKey, value: int)
    | CounterDelete(at: RowKey)

  /** `Pairs` is an ordered answer, `Taken` the unordered one of a drain. */
  datatype Reply =
    | Done
    | Invalid
    | Count(count: int)
    | Item(item: Option<Bytes>)
    | Values(values: seq<Option<Bytes>>)
    | Pairs(pairs: seq<Pair>)
    | Taken(taken: map<Bytes, Bytes>)
    | Ordinal(id: int)
    | Entries(entries: seq<Entry>)
    | Number(n: int)

  // ---- Keys in order ---------------------------------------------------------------------------

  /** Bytewise comparison: the shorter of two keys with a common prefix comes first. */
  predicate Less(a: Bytes, b: Bytes) {
    b != [] && (a == [] || a[0] < b[0] || (a[0] == b[0] && Less(a[1..], b[1..])))
  }

  /**
   The bytewise order, said outright: behind a common beginning either the first key ends or its next byte is the
   smaller one.
   */
  ghost predicate ComesBefore(a: Bytes, b: Bytes) {
    exists n: nat :: n <= |a| && n < |b| && a[..n] == b[..n] && (n == |a| || a[n] < b[n])
  }

  lemma {:induction false} DifferAt(a: Bytes, b: Bytes) returns (n: nat)
    requires Less(a, b)
    ensures n <= |a| && n < |b| && a[..n] == b[..n] && (n == |a| || a[n] < b[n])
  {
    if a == [] || a[0] < b[0] {
      n := 0;
    } else {
      var k := DifferAt(a[1..], b[1..]);
      n := k + 1;
      assert a[..n] == [a[0]] + a[1..][..k] && b[..n] == [b[0]] + b[1..][..k];
    }
  }

  lemma {:induction false} LessFrom(a: Bytes, b: Bytes, n: nat)
    requires n <= |a| && n < |b| && a[..n] == b[..n] && (n == |a| || a[n] < b[n])
    ensures Less(a, b)
    decreases n
  {
    if n > 0 {
      assert a[0] == a[..n][0] == b[..n][0] == b[0];
      assert a[1..][..n - 1] == a[..n][1..] && b[1..][..n - 1] == b[..n][1..];
      LessFrom(a[1..], b[1..], n - 1);
    }
  }

  lemma LessIsBytewise(a: Bytes, b: Bytes)
    ensures Less(a, b) <==> ComesBefore(a, b)
  {
    hide Less;
    if Less(a, b) {
      var n := DifferAt(a, b);
    }
    if ComesBefore(a, b) {
      var n: nat :| n <= |a| && n < |b| && a[..n] == b[..n] && (n == |a| || a[n] < b[n]);
      LessFrom(a, b, n);
    }
  }

  lemma {:induction false} LessIsTotal(a: Bytes, b: Bytes)
    ensures a == b || Less(a, b) || Less(b, a)
    ensures !(Less(a, b) && Less(b, a)) && !Less(a, a)
  {
    if a != [] {
      LessIsTotal(a[1..], a[1..]);
      if b != [] && a[0] == b[0] {
        LessIsTotal(a[1..], b[1..]);
        assert a == [a[0]] + a[1..] && b == [b[0]] + b[1..];
      }
    }
  }

  lemma {:induction false} LessIsTransitive(a: Bytes, b: Bytes, c: Bytes)
    requires Less(a, b) && Less(b, c)
    ensures Less(a, c)
  {
    if a != [] && a[0] == b[0] == c[0] {
      LessIsTransitive(a[1..], b[1..], c[1..]);
    }
  }

  lemma {:induction false} SmallestExists(keys: set<Bytes>) returns (k: Bytes)
    requires keys != {}
    ensures k in keys && forall j <- keys :: j == k || Less(k, j)
    decreases |keys|
  {
    k :| k in keys;
    var others := keys - {k};
    if others != {} {
      var least := SmallestExists(others);
      LessIsTotal(k, least);
      if Less(least, k) {
        k := least;
      } else {
        forall j <- keys ensures j == k || Less(k, j) {
          if j != k && j != least {
            LessIsTransitive(k, least, j);
          }
        }
      }
    }
  }

  lemma SmallestIsUnique(keys: set<Bytes>)
    requires keys != {}
    ensures exists k <- keys :: forall j <- keys :: j == k || Less(k, j)
    ensures forall a, b | a in keys && b in keys :: Less(a, b) ==> !Less(b, a)
  {
    var k := SmallestExists(keys);
    forall a, b | a in keys && b in keys ensures Less(a, b) ==> !Less(b, a) {
      LessIsTotal(a, b);
    }
  }

  function Smallest(keys: set<Bytes>): (k: Bytes)
    requires keys != {}
    ensures k in keys && forall j <- keys :: j == k || Less(k, j)
  {
    SmallestIsUnique(keys);
    var k :| k in keys && forall j <- keys :: j == k || Less(k, j);
    k
  }

  /** `ORDER BY key ASC`. */
  function InOrder(keys: set<Bytes>): (r: seq<Bytes>)
    ensures forall i :: 0 <= i < |r| ==> r[i] in keys
    decreases |keys|
  {
    if keys == {} then []
    else
      var k := Smallest(keys);
      [k] + InOrder(keys - {k})
  }

  ghost predicate Ascending(s: seq<Bytes>) {
    forall i, j :: 0 <= i < j < |s| ==> ComesBefore(s[i], s[j])
  }

  lemma {:induction false} InOrderSorts(keys: set<Bytes>)
    ensures Ascending(InOrder(keys))
    ensures forall k :: k in InOrder(keys) <==> k in keys
    ensures |InOrder(keys)| == |keys|
    decreases |keys|
  {
    if keys != {} {
      var k := Smallest(keys);
      InOrderSorts(keys - {k});
      var rest := InOrder(keys - {k});
      forall j | 0 <= j < |rest| ensures ComesBefore(k, rest[j]) {
        assert rest[j] in rest;
        LessIsBytewise(k, rest[j]);
      }
    }
  }

  function Reversed<T>(s: seq<T>): (r: seq<T>)
    ensures |r| == |s|
    ensures forall i :: 0 <= i < |s| ==> r[i] == s[|s| - 1 - i]
  {
    seq(|s|, i requires 0 <= i < |s| => s[|s| - 1 - i])
  }

  // ---- What each operation does ----------------------------------------------------------------

  predicate InRange(range: Range, key: Bytes) {
    && (range.start.Some? ==> !Less(key, range.start.value))
    && (range.end.Some? ==> Less(key, range.end.value))
  }

  /** `LIMIT ?`, where no limit is sent as -1 and a negative limit is no limit. */
  function Limited<T>(s: seq<T>, limit: Option<int>): seq<T> {
    if limit.Some? && 0 <= limit.value < |s| then s[..limit.value] else s
  }

  function KeysIn(state: map<RowKey, Bytes>, scope: Bytes, ns: Bytes, range: Range): (r: set<Bytes>)
    ensures forall k :: k in r <==> RowKey(scope, ns, k) in state && InRange(range, k)
  {
    set at <- state.Keys | at.scope == scope && at.ns == ns && InRange(range, at.key) :: at.key
  }

  function Listed(keys: set<Bytes>, reverse: bool, limit: Option<int>): (r: seq<Bytes>)
    ensures forall i :: 0 <= i < |r| ==> r[i] in keys
  {
    var asc := InOrder(keys);
    Limited(if reverse then Reversed(asc) else asc, limit)
  }

  function ScanOf(state: map<RowKey, Bytes>, scope: Bytes, ns: Bytes, range: Range, reverse: bool,
                  limit: Option<int>): seq<Pair> {
    var keys := Listed(KeysIn(state, scope, ns, range), reverse, limit);
    seq(|keys|, i requires 0 <= i < |keys| => Pair(keys[i], state[RowKey(scope, ns, keys[i])]))
  }

  function GetOf(state: map<RowKey, Bytes>, at: RowKey): Option<Bytes> {
    if at in state then Some(state[at]) else None
  }

  /** Upserts in order: of two items with one key the later stands. */
  function PutAll(state: map<RowKey, Bytes>, scope: Bytes, ns: Bytes, items: seq<Pair>): map<RowKey, Bytes> {
    if items == [] then state
    else
      var last := items[|items| - 1];
      PutAll(state, scope, ns, items[..|items| - 1])[RowKey(scope, ns, last.key) := last.value]
  }

  predicate Deletes(scope: Bytes, ns: Bytes, only: Option<seq<Bytes>>, range: Range, at: RowKey) {
    at.scope == scope && at.ns == ns && if only.Some? then at.key in only.value else InRange(range, at.key)
  }

  function OutsideScope<V>(rows: map<RowKey, V>, scope: Bytes): map<RowKey, V> {
    map at <- rows.Keys | at.scope != scope :: rows[at]
  }

  function Namespace(state: map<RowKey, Bytes>, scope: Bytes, ns: Bytes): map<Bytes, Bytes> {
    map at <- state.Keys | at.scope == scope && at.ns == ns :: at.key := state[at]
  }

  /** The elements a condition selects, in order. */
  function Where<T>(s: seq<T>, p: T -> bool): seq<T> {
    if s == [] then []
    else
      var last := s[|s| - 1];
      Where(s[..|s| - 1], p) + if p(last) then [last] else []
  }

  function Of(execution: Bytes): Job -> bool { (r: Job) => r.owner == execution }
  function NotOf(execution: Bytes): Job -> bool { (r: Job) => r.owner != execution }
  function OutOf(scope: Bytes): LogRow -> bool { (r: LogRow) => r.owner.scope != scope }
  function Beyond(at: RowKey, afterId: int): LogRow -> bool { (r: LogRow) => r.owner == at && r.id > afterId }

  function ItemsOf(rows: seq<Job>): seq<Bytes> { seq(|rows|, i requires 0 <= i < |rows| => rows[i].value) }

  function EntriesOf(rows: seq<LogRow>): seq<Entry> {
    seq(|rows|, i requires 0 <= i < |rows| => Entry(rows[i].id, rows[i].value))
  }

  /** The waiting items of one execution, oldest first. */
  function QueueOf(queue: seq<Job>, execution: Bytes): seq<Bytes> { ItemsOf(Where(queue, Of(execution))) }

  /** `WHERE scope_id = ? AND ns = ? AND key = ? AND id > ? ORDER BY id`. */
  function EntriesAfter(log: seq<LogRow>, at: RowKey, afterId: int): seq<Entry> {
    EntriesOf(Where(log, Beyond(at, afterId)))
  }

  function Pushed(queue: seq<Job>, lastJobId: int, execution: Bytes, items: seq<Bytes>): seq<Job> {
    queue + seq(|items|, i requires 0 <= i < |items| => Row(lastJobId + 1 + i, execution, items[i]))
  }

  /** The place of the execution's oldest job. */
  function OldestJob(queue: seq<Job>, execution: Bytes): (r: Option<nat>)
    ensures r.Some? ==> r.value < |queue| && queue[r.value].owner == execution
    ensures forall i :: 0 <= i < r.GetOr(|queue|) ==> queue[i].owner != execution
  {
    if queue == [] then None
    else
      var init := OldestJob(queue[..|queue| - 1], execution);
      if init.Some? then init else if queue[|queue| - 1].owner == execution then Some(|queue| - 1) else None
  }

  function CounterOf(counters: map<RowKey, int>, at: RowKey): int {
    if at in counters then counters[at] else 0
  }

  function Step(t: Tables, op: Op): (Tables, Reply) {
    match op
    case QueuePush(execution, items) =>
      (t.(queue := Pushed(t.queue, t.lastJobId, execution, items), lastJobId := t.lastJobId + |items|), Count(|items|))
    case QueuePop(execution) =>
      (match OldestJob(t.queue, execution)
       case None => (t, Item(None))
       case Some(i) => (t.(queue := t.queue[..i] + t.queue[i + 1..]), Item(Some(t.queue[i].value))))
    case QueueClear(execution) =>
      (t.(queue := Where(t.queue, NotOf(execution))), Count(|t.queue| - |Where(t.queue, NotOf(execution))|))
    case GetMany(scope, ns, keys) =>
      (t, Values(seq(|keys|, i requires 0 <= i < |keys| => GetOf(t.state, RowKey(scope, ns, keys[i])))))
    case PutMany(scope, ns, items) =>
      (t.(state := PutAll(t.state, scope, ns, items)), Done)
    case Scan(scope, ns, range, reverse, limit) =>
      (t, Pairs(ScanOf(t.state, scope, ns, range, reverse, limit)))
    case Drain(scope, ns) =>
      (t.(state := map at <- t.state.Keys | !(at.scope == scope && at.ns == ns) :: t.state[at]),
       Taken(Namespace(t.state, scope, ns)))
    case Delete(scope, ns, only, range) =>
      if only.Some? && (range.start.Some? || range.end.Some?) then (t, Invalid)
      else
        var kept := map at <- t.state.Keys | !Deletes(scope, ns, only, range, at) :: t.state[at];
        (t.(state := kept), Count(|t.state| - |kept|))
    case ClearScope(scope) =>
      var state := OutsideScope(t.state, scope);
      var log := Where(t.log, OutOf(scope));
      var counters := OutsideScope(t.counters, scope);
      (t.(state := state, log := log, counters := counters),
       Count((|t.state| - |state|) + (|t.log| - |log|) + (|t.counters| - |counters|)))
    case Append(at, item) =>
      (t.(log := t.log + [Row(t.lastLogId + 1, at, item)], lastLogId := t.lastLogId + 1), Ordinal(t.lastLogId + 1))
    case LogScan(at, afterId, limit) =>
      (t, Entries(Limited(EntriesAfter(t.log, at, afterId), limit)))
    case CounterGet(at) => (t, Number(CounterOf(t.counters, at)))
    case CounterAdd(at, delta) =>
      (t.(counters := t.counters[at := CounterOf(t.counters, at) + delta]), Number(CounterOf(t.counters, at) + delta))
    case CounterSet(at, value) => (t.(counters := t.counters[at := value]), Done)
    case CounterDelete(at) => (t.(counters := t.counters - {at}), Done)
  }

  /** The tables after a sequence of operations on an empty store, by whichever workers. */
  function Run(ops: seq<Op>): Tables {
    if ops == [] then NO_TABLES else Step(Run(ops[..|ops| - 1]), ops[|ops| - 1]).0
  }

  // ---- Scans -----------------------------------------------------------------------------------

  ghost predicate Before(reverse: bool, a: Bytes, b: Bytes) { if reverse then ComesBefore(b, a) else ComesBefore(a, b) }

  /** `[start, end)` bytewise, either side open. */
  ghost predicate Within(range: Range, key: Bytes) {
    && (range.start.Some? ==> key == range.start.value || ComesBefore(range.start.value, key))
    && (range.end.Some? ==> ComesBefore(key, range.end.value))
  }

  lemma InRangeIsWithin(range: Range, key: Bytes)
    ensures InRange(range, key) <==> Within(range, key)
  {
    hide Less, ComesBefore;
    if range.start.Some? {
      LessIsTotal(key, range.start.value);
      LessIsBytewise(range.start.value, key);
    }
    if range.end.Some? {
      LessIsBytewise(key, range.end.value);
    }
  }

  lemma DirectedKeys(keys: set<Bytes>, reverse: bool) returns (all: seq<Bytes>)
    ensures all == if reverse then Reversed(InOrder(keys)) else InOrder(keys)
    ensures forall i, j :: 0 <= i < j < |all| ==> Before(reverse, all[i], all[j])
    ensures forall k <- keys :: k in all
  {
    hide Less, InOrder;
    InOrderSorts(keys);
    var asc := InOrder(keys);
    all := if reverse then Reversed(asc) else asc;
    forall k <- keys ensures k in all {
      var i :| 0 <= i < |asc| && asc[i] == k;
      assert all[if reverse then |asc| - 1 - i else i] == k;
    }
  }

  lemma ListedInDirection(keys: set<Bytes>, reverse: bool, limit: Option<int>)
    ensures var r := Listed(keys, reverse, limit);
            && (forall i, j :: 0 <= i < j < |r| ==> Before(reverse, r[i], r[j]))
            && (limit.Some? && limit.value >= 0 ==> |r| <= limit.value)
            && (forall k <- keys ::
                  k in r || (limit == Some(|r|) && forall i :: 0 <= i < |r| ==> Before(reverse, r[i], k)))
  {
    hide Before, InOrder, Reversed;
    var all := DirectedKeys(keys, reverse);
    var r := Listed(keys, reverse, limit);
    assert r <= all;
    forall k <- keys ensures k in r || (limit == Some(|r|) && forall i :: 0 <= i < |r| ==> Before(reverse, r[i], k)) {
      var place :| 0 <= place < |all| && all[place] == k;
      if place < |r| {
        assert r[place] == k;
      }
    }
  }

  /**
   A scan lists keys strictly in the asked direction with their stored values; what it leaves out of the
   range comes after everything it lists, and only because the limit is reached.
   */
  ghost predicate OrderedRange(state: map<RowKey, Bytes>, scope: Bytes, ns: Bytes, range: Range, reverse: bool,
                               limit: Option<int>, r: seq<Pair>) {
    && (forall i, j :: 0 <= i < j < |r| ==> Before(reverse, r[i].key, r[j].key))
    && (forall i :: 0 <= i < |r| ==>
          GetOf(state, RowKey(scope, ns, r[i].key)) == Some(r[i].value) && Within(range, r[i].key))
    && (limit.Some? && limit.value >= 0 ==> |r| <= limit.value)
    && (forall k | RowKey(scope, ns, k) in state && Within(range, k) ::
          || Pair(k, state[RowKey(scope, ns, k)]) in r
          || (limit == Some(|r|) && forall i :: 0 <= i < |r| ==> Before(reverse, r[i].key, k)))
  }

  lemma ScanIsOrderedRange(state: map<RowKey, Bytes>, scope: Bytes, ns: Bytes, range: Range, reverse: bool,
                           limit: Option<int>)
    ensures OrderedRange(state, scope, ns, range, reverse, limit, ScanOf(state, scope, ns, range, reverse, limit))
  {
    hide Less, InRange, Within, Listed, Before;
    forall k ensures InRange(range, k) <==> Within(range, k) {
      InRangeIsWithin(range, k);
    }
    var keys := KeysIn(state, scope, ns, range);
    ListedInDirection(keys, reverse, limit);
    var listed, r := Listed(keys, reverse, limit), ScanOf(state, scope, ns, range, reverse, limit);
    forall k | RowKey(scope, ns, k) in state && Within(range, k)
      ensures || Pair(k, state[RowKey(scope, ns, k)]) in r
              || (limit == Some(|r|) && forall i :: 0 <= i < |r| ==> Before(reverse, r[i].key, k))
    {
      if k in listed {
        var i :| 0 <= i < |listed| && listed[i] == k;
        assert r[i] == Pair(k, state[RowKey(scope, ns, k)]);
      }
    }
  }
}
