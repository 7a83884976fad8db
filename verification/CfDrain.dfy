/**
 Draining a namespace over HTTP: the first page tombstones it, later pages read that snapshot, and each page
 is one logical call that may be posted several times.
 */
module CfDrain {
  import opened Common
  import opened Bytes
  import opened Storage
  import opened CfPaging

  // ---- The namespace on the server -------------------------------------------------------------

  /** A namespace in key order. */
  function Listing(live: map<Bytes, Bytes>): seq<Pair> {
    var keys := InOrder(live.Keys);
    seq(|keys|, i requires 0 <= i < |keys| => Pair(keys[i], live[keys[i]]))
  }

  lemma ListingIsInDirection(live: map<Bytes, Bytes>)
    ensures InDirection(Listing(live), false)
    ensures forall k :: k in live <==> exists i :: 0 <= i < |Listing(live)| && Listing(live)[i].key == k
    ensures forall i :: 0 <= i < |Listing(live)| ==>
              Listing(live)[i].key in live && Listing(live)[i].value == live[Listing(live)[i].key]
  {
    hide Less, InOrder;
    InOrderSorts(live.Keys);
    var keys := InOrder(live.Keys);
    forall k ensures k in live <==> exists i :: 0 <= i < |Listing(live)| && Listing(live)[i].key == k {
      if k in live {
        var i :| 0 <= i < |keys| && keys[i] == k;
        assert Listing(live)[i].key == k;
      }
    }
  }

  /** Live rows, and the tombstoned snapshot of each attempt. */
  datatype Namespace = Namespace(live: map<Bytes, Bytes>, snapshots: map<nat, seq<Pair>>)

  /** What an attempt drains: its snapshot, once it has one. */
  function SnapshotFor(ns: Namespace, attempt: nat): seq<Pair> {
    if attempt in ns.snapshots then ns.snapshots[attempt] else Listing(ns.live)
  }

  /** One page request: an attempt seen for the first time takes the whole namespace. */
  function ServePage(ns: Namespace, attempt: nat, page: seq<Pair> -> Page): (Namespace, Page) {
    var all := SnapshotFor(ns, attempt);
    (Namespace(if attempt in ns.snapshots then ns.live else map[], ns.snapshots[attempt := all]), page(all))
  }

  function Serving(attempt: nat, page: seq<Pair> -> Page): Namespace -> (Namespace, Page) {
    (ns: Namespace) => ServePage(ns, attempt, page)
  }

  /** A page asked for again under the same attempt and cursor is the same page and changes nothing. */
  lemma PagesReplay(attempt: nat, page: seq<Pair> -> Page)
    ensures Replays(Serving(attempt, page))
  {
    forall ns: Namespace ensures Serving(attempt, page)(Serving(attempt, page)(ns).0) == Serving(attempt, page)(ns) {
      var once := ServePage(ns, attempt, page).0;
      assert once.snapshots[attempt := once.snapshots[attempt]] == once.snapshots;
    }
  }

  // ---- What is left to yield -------------------------------------------------------------------

  /** What is left to yield from a cursor of a snapshot. */
  ghost function Left(all: seq<Pair>, server: Server, place: Token -> nat, after: Option<Token>): (seq<Pair>, nat)
    requires Serves(all, server, place) && Start(after, place) <= |all|
  {
    var pages := Fetched(all, server, place, after, None);
    (RowsIn(pages), |pages|)
  }

  lemma DrainOne(all: seq<Pair>, server: Server, place: Token -> nat, after: Option<Token>)
    requires Serves(all, server, place) && Start(after, place) <= |all|
    ensures var page := server(after, None);
            var (rows, count) := Left(all, server, place, after);
            count > 0 &&
            if page.nextAfter.None? || page.nextAfter.value == [] then rows == page.rows && count == 1
            else
              && Start(after, place) < Start(page.nextAfter, place) <= |all|
              && var (rest, n) := Left(all, server, place, page.nextAfter); rows == page.rows + rest && count == 1 + n
  {
    hide Fetched, RowsIn, Serves;
    FetchOne(all, server, place, after, None);
  }

  /**
   With cursors that spell the last key, an answered drain yields exactly the namespace as it stood at the
   first page unless the empty key is alone on that page.
   */
  lemma DrainIsCompleteExactly(live: map<Bytes, Bytes>, server: Server, place: Token -> nat)
    requires Serves(Listing(live), server, place) && CursorsAreKeys(server)
    ensures Left(Listing(live), server, place, None).0 == Listing(live) <==> !EmptyKeyAlone(Listing(live), server, None)
  {
    hide Serves, CursorsAreKeys, Fetched, RowsIn, Listing, EmptyKeyAlone;
    ListingIsInDirection(live);
    ScanIsCompleteExactly(Listing(live), server, place, false, None);
  }

  lemma DrainYieldsAPrefix(live: map<Bytes, Bytes>, server: Server, place: Token -> nat)
    requires Serves(Listing(live), server, place)
    ensures Left(Listing(live), server, place, None).0 <= Listing(live)
    ensures CursorsAreKeys(server) ==>
              (Left(Listing(live), server, place, None).0 == Listing(live)
               <==> !EmptyKeyAlone(Listing(live), server, None))
  {
    hide Serves, CursorsAreKeys, Fetched, RowsIn, Listing, EmptyKeyAlone, FirstN;
    PagingYieldsTheRange(Listing(live), server, place, None, None);
    AllOwed(Listing(live));
    if CursorsAreKeys(server) {
      DrainIsCompleteExactly(live, server, place);
    }
  }

  lemma AllOwed(all: seq<Pair>)
    ensures FirstN(all[0..], None) == all
  {
  }

  // ---- The drain loop over posts ---------------------------------------------------------------

  /** What other clients make of an emptied namespace in `n` rounds of writes. */
  function Written(others: (nat, map<Bytes, Bytes>) -> map<Bytes, Bytes>, n: nat): map<Bytes, Bytes> {
    if n == 0 then map[] else others(n - 1, Written(others, n - 1))
  }

  predicate Answered(wire: seq<Wire>) { wire != [] && wire[Made(wire) - 1].Delivered? }

  predicate AllAnswered(wires: nat -> seq<Wire>, n: nat) { forall i: nat :: i < n ==> Answered(wires(i)) }

  lemma NoneAsked(wires: nat -> seq<Wire>)
    ensures AllAnswered(wires, 0)
  {
  }

  lemma OneMoreAnswered(wires: nat -> seq<Wire>, n: nat)
    requires AllAnswered(wires, n) && Answered(wires(n))
    ensures AllAnswered(wires, n + 1)
  {
  }

  lemma NotAllAnswered(wires: nat -> seq<Wire>, n: nat, count: nat)
    requires !Answered(wires(n)) && n < count
    ensures !AllAnswered(wires, count)
  {
  }

  lemma Prefixes(a: seq<Pair>, b: seq<Pair>, c: seq<Pair>)
    requires a + b <= c
    ensures a <= c
  {
  }

  /** How the server cuts a snapshot when asked from a cursor. */
  function Asking(cut: seq<Pair> -> Server, after: Option<Token>): seq<Pair> -> Page {
    (all: seq<Pair>) => cut(all)(after, None)
  }

  /** One page over HTTP, and the other clients' writes after it. */
  method FetchPage(ns: Namespace, attempt: nat, cut: seq<Pair> -> Server, after: Option<Token>, wire: seq<Wire>)
      returns (now: Namespace, answer: Result<Page, Wire>)
    requires |wire| == POST_ATTEMPTS
    ensures answer.Ok? <==> Answered(wire)
    ensures answer.Ok? ==> (now, answer.value) == ServePage(ns, attempt, Asking(cut, after))
    ensures answer.Err? ==> now == ns || now == ServePage(ns, attempt, Asking(cut, after)).0
  {
    PagesReplay(attempt, Asking(cut, after));
    now, answer := Post(ns, Serving(attempt, Asking(cut, after)), wire);
    var last := Made(wire) - 1;
    assert wire[last].Delivered? ==> Executes(wire[last]);
  }

  /**
   `state_drain` over `_post`, with other clients writing after every page. While its posts are answered it
   yields pages of the namespace as it stood at the first one, all of it unless the empty key is alone on that
   page, and every later write survives; a page whose posts all fail ends it with what came before.
   */
  method StateDrain(ns: Namespace, attempt: nat, cut: seq<Pair> -> Server, ghost place: Token -> nat,
                    wires: nat -> seq<Wire>, others: (nat, map<Bytes, Bytes>) -> map<Bytes, Bytes>)
      returns (yielded: seq<Pair>, after: Namespace, failure: Option<Wire>)
    requires attempt !in ns.snapshots && forall n :: |wires(n)| == POST_ATTEMPTS
    requires Serves(Listing(ns.live), cut(Listing(ns.live)), place)
    ensures var all := Listing(ns.live);
            var left := Left(all, cut(all), place, None);
            && (failure.None? <==> AllAnswered(wires, left.1))
            && yielded <= all && (failure.None? ==> yielded == left.0 && after.live == Written(others, left.1))
            && (failure.None? && CursorsAreKeys(cut(all)) ==> (yielded == all <==> !EmptyKeyAlone(all, cut(all), None)))
  {
    hide Left, Serves, Listing, Start, Written, Answered, ServePage, CursorsAreKeys, EmptyKeyAlone, SnapshotFor, Kept,
      Made, AllAnswered;
    NothingWritten(others);
    ghost var all := Listing(ns.live);
    ghost var server := cut(all);
    FromTheStart(all, place);
    ghost var rows, count := Left(all, server, place, None).0, Left(all, server, place, None).1;
    DrainYieldsAPrefix(ns.live, server, place);
    yielded, after, failure := [], ns, None;
    var cursor: Option<Token> := None;
    var n: nat := 0;
    FirstTaken(ns, attempt);
    NoneAsked(wires);
    while true
      invariant Start(cursor, place) <= |all|
      invariant SnapshotFor(after, attempt) == all && Kept(after, attempt) == Written(others, n)
      invariant n > 0 ==> attempt in after.snapshots
      invariant yielded + Left(all, server, place, cursor).0 == rows && n + Left(all, server, place, cursor).1 == count
      invariant failure.None? && AllAnswered(wires, n)
      decreases |all| - Start(cursor, place)
    {
      DrainOne(all, server, place, cursor);
      ServedPage(after, attempt, Asking(cut, cursor));
      var answer;
      after, answer := FetchPage(after, attempt, cut, cursor, wires(n));
      if answer.Err? {
        NotAllAnswered(wires, n, count);
        Prefixes(yielded, Left(all, server, place, cursor).0, all);
        failure := Some(answer.error);
        return;
      }
      var page := answer.value;
      yielded := yielded + page.rows;
      WrittenOnce(others, n);
      LaterWrites(after, attempt, others(n, after.live));
      after := after.(live := others(n, after.live));
      OneMoreAnswered(wires, n);
      n := n + 1;
      if page.nextAfter.None? || page.nextAfter.value == [] {
        assert n == count && yielded == rows;
        return;
      }
      cursor := page.nextAfter;
    }
  }

  /** What an attempt leaves live when its page is served. */
  function Kept(ns: Namespace, attempt: nat): map<Bytes, Bytes> { if attempt in ns.snapshots then ns.live else map[] }

  lemma FirstTaken(ns: Namespace, attempt: nat)
    requires attempt !in ns.snapshots
    ensures SnapshotFor(ns, attempt) == Listing(ns.live) && Kept(ns, attempt) == map[]
  {
  }

  lemma ServedPage(ns: Namespace, attempt: nat, page: seq<Pair> -> Page)
    ensures var (now, answer) := ServePage(ns, attempt, page);
            && answer == page(SnapshotFor(ns, attempt)) && attempt in now.snapshots
            && SnapshotFor(now, attempt) == SnapshotFor(ns, attempt) && now.live == Kept(ns, attempt)
  {
    hide Listing;
  }

  lemma LaterWrites(ns: Namespace, attempt: nat, live: map<Bytes, Bytes>)
    requires attempt in ns.snapshots
    ensures SnapshotFor(ns.(live := live), attempt) == SnapshotFor(ns, attempt)
            && Kept(ns.(live := live), attempt) == live
  {
  }

  lemma NothingWritten(others: (nat, map<Bytes, Bytes>) -> map<Bytes, Bytes>)
    ensures Written(others, 0) == map[]
  {
  }

  lemma WrittenOnce(others: (nat, map<Bytes, Bytes>) -> map<Bytes, Bytes>, n: nat)
    ensures Written(others, n + 1) == others(n, Written(others, n))
  {
  }

  lemma FromTheStart(all: seq<Pair>, place: Token -> nat)
    ensures Start(None, place) <= |all|
  {
  }

  // ---- Where a drain loses rows ----------------------------------------------------------------

  /**
   Where a drain is not complete, only the empty key is yielded: every other key of the namespace is neither
   yielded nor live.
   */
  lemma StalledDrainLosesTheRest(ns: Namespace, attempt: nat, cut: seq<Pair> -> Server, place: Token -> nat)
    requires attempt !in ns.snapshots
    requires Serves(Listing(ns.live), cut(Listing(ns.live)), place) && CursorsAreKeys(cut(Listing(ns.live)))
    requires EmptyKeyAlone(Listing(ns.live), cut(Listing(ns.live)), None)
    ensures var (rows, count) := Left(Listing(ns.live), cut(Listing(ns.live)), place, None);
            && [] in ns.live && rows == [Pair([], ns.live[[]])] && count == 1
            && ServePage(ns, attempt, Asking(cut, None)).0.live == map[]
            && exists k :: k in ns.live && k != []
  {
    hide Fetched, RowsIn, Listing, Left;
    var all := Listing(ns.live);
    var server := cut(all);
    var page := server(None, None);
    ListingIsInDirection(ns.live);
    DrainOne(all, server, place, None);
    assert all[0..] == all && IsPage(all, page);
    assert page.rows[0] == all[0] && all[1].key in ns.live;
    assert Before(false, all[0].key, all[1].key);
  }

  // ---- A server that cuts one row per page -----------------------------------------------------

  function PlaceAfter(all: seq<Pair>, key: Bytes): nat {
    if all == [] then 0 else if all[0].key == key then 1 else 1 + PlaceAfter(all[1..], key)
  }

  /** Pages of one row, each cursor the key of its row. */
  function OneByOne(all: seq<Pair>): Server {
    (after: Option<Token>, limit: Option<nat>) =>
      var from := if after.None? then 0 else PlaceAfter(all, after.value);
      var owed := FirstN(if from <= |all| then all[from..] else [], limit);
      if |owed| <= 1 then Page(owed, None) else Page(owed[..1], Some(owed[0].key))
  }

  lemma {:induction false} PlaceAfterKey(all: seq<Pair>, i: nat)
    requires InDirection(all, false) && i < |all|
    ensures PlaceAfter(all, all[i].key) == i + 1
  {
    hide Less;
    if i > 0 {
      assert Before(false, all[0].key, all[i].key);
      LessIsTotal(all[0].key, all[i].key);
      assert forall j :: 0 <= j < |all[1..]| ==> all[1..][j] == all[j + 1];
      PlaceAfterKey(all[1..], i - 1);
    }
  }

  lemma OneByOneServes(all: seq<Pair>)
    requires InDirection(all, false)
    ensures Serves(all, OneByOne(all), (t: Token) => PlaceAfter(all, t)) && CursorsAreKeys(OneByOne(all))
  {
    var place := (t: Token) => PlaceAfter(all, t);
    forall after: Option<Token>, limit: Option<nat> | Start(after, place) <= |all|
      ensures var page := OneByOne(all)(after, limit);
              && IsPage(FirstN(all[Start(after, place)..], limit), page)
              && (page.nextAfter.Some? ==> place(page.nextAfter.value) == Start(after, place) + |page.rows|)
    {
      var from := Start(after, place);
      var owed := FirstN(all[from..], limit);
      if |owed| > 1 {
        assert owed[0] == all[from];
        PlaceAfterKey(all, from);
      }
    }
  }

  /** Every namespace with the empty key and another one is drained incompletely by such a server. */
  lemma EmptyKeyDrainLosesRows(live: map<Bytes, Bytes>)
    requires [] in live && |live| > 1
    ensures var all := Listing(live);
            && Serves(all, OneByOne(all), (t: Token) => PlaceAfter(all, t)) && CursorsAreKeys(OneByOne(all))
            && EmptyKeyAlone(all, OneByOne(all), None)
  {
    hide Less, InOrder;
    var all := Listing(live);
    ListingIsInDirection(live);
    InOrderSorts(live.Keys);
    assert |live.Keys| == |live|;
    OneByOneServes(all);
    var i :| 0 <= i < |all| && all[i].key == [];
    EmptyKeyIsAtAnEnd(all, false);
  }
}
