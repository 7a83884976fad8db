/** The HTTP client of the Durable Object store: paging loops and the retry of one logical call. */
module CfPaging {
  import opened Common
  import opened Bytes
  import opened Storage

  // ---- The server's page contract --------------------------------------------------------------

  /** A continuation cursor, named by the bytes its text spells: only the empty text spells no bytes. */
  type Token = Bytes

  datatype Page = Page(rows: seq<Pair>, nextAfter: Option<Token>)

  /** The server's answer to a cursor and a limit. */
  type Server = (Option<Token>, Option<nat>) -> Page

  function FirstN(rows: seq<Pair>, limit: Option<nat>): seq<Pair> {
    if limit.Some? && limit.value < |rows| then rows[..limit.value] else rows
  }

  /**
   A page starts where the cursor points, is empty only when nothing is owed, and ends the range or says where
   to go on.
   */
  predicate IsPage(owed: seq<Pair>, page: Page) {
    && page.rows <= owed
    && (owed != [] ==> page.rows != [])
    && (page.nextAfter.None? ==> page.rows == owed)
    && (page.nextAfter.Some? ==> page.rows != [])
  }

  function Start(after: Option<Token>, place: Token -> nat): nat { if after.None? then 0 else place(after.value) }

  /** The server cuts the ordered range `all` into pages; `place` is where each cursor points. */
  ghost predicate Serves(all: seq<Pair>, server: Server, place: Token -> nat) {
    forall after: Option<Token>, limit: Option<nat> ::
      var from := Start(after, place);
      from <= |all| ==>
        var page := server(after, limit);
        IsPage(FirstN(all[from..], limit), page)
        && (page.nextAfter.Some? ==> place(page.nextAfter.value) == from + |page.rows|)
  }

  // ---- The scan loop ---------------------------------------------------------------------------

  function Minus(limit: Option<nat>, n: nat): Option<nat>
    requires limit.Some? ==> n <= limit.value
  {
    if limit.Some? then Some(limit.value - n) else None
  }

  /** The loop goes on after this page. */
  predicate GoesOn(page: Page, limit: Option<nat>) {
    && page.nextAfter.Some? && page.nextAfter.value != []
    && !(limit.Some? && limit.value <= |page.rows|)
  }

  /** The pages a loop fetches from a cursor on. */
  ghost function Fetched(all: seq<Pair>, server: Server, place: Token -> nat, after: Option<Token>,
                         limit: Option<nat>): seq<Page>
    requires Serves(all, server, place) && Start(after, place) <= |all|
    decreases |all| - Start(after, place)
  {
    var page := server(after, limit);
    assert IsPage(FirstN(all[Start(after, place)..], limit), page);
    [page] + if GoesOn(page, limit) then Fetched(all, server, place, page.nextAfter, Minus(limit, |page.rows|)) else []
  }

  function RowsIn(pages: seq<Page>): seq<Pair> {
    if pages == [] then [] else pages[0].rows + RowsIn(pages[1..])
  }

  lemma FetchOne(all: seq<Pair>, server: Server, place: Token -> nat, after: Option<Token>, limit: Option<nat>)
    requires Serves(all, server, place) && Start(after, place) <= |all|
    ensures var page, pages := server(after, limit), Fetched(all, server, place, after, limit);
            if GoesOn(page, limit) then
              && Start(after, place) < Start(page.nextAfter, place) <= |all|
              && var rest := Fetched(all, server, place, page.nextAfter, Minus(limit, |page.rows|));
                 && RowsIn(pages) == page.rows + RowsIn(rest) && |pages| == 1 + |rest|
                 && rest != [] && pages[|pages| - 1] == rest[|rest| - 1]
            else RowsIn(pages) == page.rows && pages == [page]
  {
    var page, pages := server(after, limit), Fetched(all, server, place, after, limit);
    assert IsPage(FirstN(all[Start(after, place)..], limit), page);
    assert RowsIn(pages) == page.rows + RowsIn(pages[1..]);
    if !GoesOn(page, limit) {
      assert RowsIn(pages[1..]) == [];
    }
  }

  /** `state_scan`; `remaining` counts down and an empty cursor ends the loop. */
  method StateScan(all: seq<Pair>, server: Server, ghost place: Token -> nat, limit: Option<nat>)
    returns (yielded: seq<Pair>)
    requires Serves(all, server, place)
    ensures yielded == RowsIn(Fetched(all, server, place, None, limit))
  {
    hide Fetched, Serves, RowsIn;
    yielded := [];
    var after: Option<Token> := None;
    var remaining: Option<nat> := limit;
    while true
      invariant Start(after, place) <= |all|
      invariant yielded + RowsIn(Fetched(all, server, place, after, remaining))
                == RowsIn(Fetched(all, server, place, None, limit))
      decreases |all| - Start(after, place)
    {
      FetchOne(all, server, place, after, remaining);
      var page := server(after, remaining);
      yielded := yielded + page.rows;
      if page.nextAfter.None? || page.nextAfter.value == [] || (remaining.Some? && remaining.value <= |page.rows|) {
        return;
      }
      after := page.nextAfter;
      remaining := Minus(remaining, |page.rows|);
    }
  }

  /** The last page fetched still leaves rows owed: it carried the empty cursor. */
  ghost predicate Stalls(pages: seq<Page>, owed: nat) {
    pages != [] && pages[|pages| - 1].nextAfter == Some([]) && |RowsIn(pages)| < owed
  }

  /** What is owed from a place on is the page found there and what is owed after it. */
  lemma OwedSplits(all: seq<Pair>, from: nat, limit: Option<nat>, page: Page)
    requires from <= |all| && IsPage(FirstN(all[from..], limit), page)
    ensures from + |page.rows| <= |all| && (limit.Some? ==> |page.rows| <= limit.value)
    ensures FirstN(all[from..], limit) == page.rows + FirstN(all[from + |page.rows|..], Minus(limit, |page.rows|))
    ensures limit == Some(|page.rows|) ==> page.rows == FirstN(all[from..], limit)
  {
    assert all[from..][|page.rows|..] == all[from + |page.rows|..];
  }

  lemma PageAt(all: seq<Pair>, server: Server, place: Token -> nat, after: Option<Token>, limit: Option<nat>)
    requires Serves(all, server, place) && Start(after, place) <= |all|
    ensures var page := server(after, limit);
            && IsPage(FirstN(all[Start(after, place)..], limit), page)
            && (page.nextAfter.Some? ==> Start(page.nextAfter, place) == Start(after, place) + |page.rows|)
  {
  }

  /** However the range is cut, the loop yields its first rows, all of them unless it stalls on an empty cursor. */
  lemma {:induction false} PagingYieldsTheRange(all: seq<Pair>, server: Server, place: Token -> nat,
                                                after: Option<Token>, limit: Option<nat>)
    requires Serves(all, server, place) && Start(after, place) <= |all|
    ensures var pages := Fetched(all, server, place, after, limit);
            var owed := FirstN(all[Start(after, place)..], limit);
            && pages != []
            && RowsIn(pages) <= owed
            && (RowsIn(pages) == owed <==> !Stalls(pages, |owed|))
    decreases |all| - Start(after, place)
  {
    hide Fetched, RowsIn, Serves, FirstN, Start;
    var page := server(after, limit);
    FetchOne(all, server, place, after, limit);
    PageAt(all, server, place, after, limit);
    OwedSplits(all, Start(after, place), limit, page);
    if GoesOn(page, limit) {
      PagingYieldsTheRange(all, server, place, page.nextAfter, Minus(limit, |page.rows|));
    }
  }

  /** No page is asked for once the pages before it have met the limit. */
  lemma {:induction false} NoRequestBeyondLimit(all: seq<Pair>, server: Server, place: Token -> nat,
                                                after: Option<Token>, limit: Option<nat>, n: nat)
    requires Serves(all, server, place) && Start(after, place) <= |all|
    requires 0 < n < |Fetched(all, server, place, after, limit)| && limit.Some?
    ensures |RowsIn(Fetched(all, server, place, after, limit)[..n])| < limit.value
    decreases n
  {
    hide Serves, RowsIn;
    var page, pages := server(after, limit), Fetched(all, server, place, after, limit);
    FetchOne(all, server, place, after, limit);
    assert pages == [page] + pages[1..];
    RowsOfFirst(pages[..n]);
    if n > 1 {
      NoRequestBeyondLimit(all, server, place, page.nextAfter, Minus(limit, |page.rows|), n - 1);
      assert pages[..n][1..] == pages[1..][..n - 1];
    } else {
      NoRows();
    }
  }

  lemma RowsOfFirst(pages: seq<Page>)
    requires pages != []
    ensures RowsIn(pages) == pages[0].rows + RowsIn(pages[1..])
  {
  }

  lemma NoRows()
    ensures RowsIn([]) == []
  {
  }

  // ---- Cursors that spell keys -----------------------------------------------------------------

  /** Each cursor is the last key of its page. */
  ghost predicate CursorsAreKeys(server: Server) {
    forall after: Option<Token>, limit: Option<nat> ::
      var page := server(after, limit);
      page.nextAfter.Some? && page.rows != [] ==> page.nextAfter.value == page.rows[|page.rows| - 1].key
  }

  /** Keys strictly ascend, or descend in reverse. */
  ghost predicate InDirection(rows: seq<Pair>, reverse: bool) {
    forall i, j :: 0 <= i < j < |rows| ==> Before(reverse, rows[i].key, rows[j].key)
  }

  /** The empty key comes first, or last in reverse. */
  lemma EmptyKeyIsAtAnEnd(all: seq<Pair>, reverse: bool)
    requires InDirection(all, reverse)
    ensures forall i :: 0 < i < |all| - 1 ==> all[i].key != []
    ensures |all| > 1 && all[0].key == [] ==> !reverse
    ensures |all| > 1 && all[|all| - 1].key == [] ==> reverse
  {
    forall i | 0 < i < |all| - 1 ensures all[i].key != [] {
      assert Before(reverse, all[0].key, all[i].key) && Before(reverse, all[i].key, all[i + 1].key);
    }
    if |all| > 1 {
      assert Before(reverse, all[0].key, all[|all| - 1].key);
    }
  }

  /** The empty key is alone on the first page and more rows are owed. */
  predicate EmptyKeyAlone(all: seq<Pair>, server: Server, limit: Option<nat>) {
    var page := server(None, limit);
    page.nextAfter.Some? && |page.rows| == 1 && page.rows[0].key == [] && |FirstN(all, limit)| > 1
  }

  lemma {:induction false} LaterPagesNeverStall(all: seq<Pair>, server: Server, place: Token -> nat,
                                                after: Option<Token>, limit: Option<nat>)
    requires Serves(all, server, place) && CursorsAreKeys(server) && Start(after, place) <= |all|
    requires forall i :: Start(after, place) <= i < |all| - 1 ==> all[i].key != []
    ensures !Stalls(Fetched(all, server, place, after, limit), |FirstN(all[Start(after, place)..], limit)|)
    decreases |all| - Start(after, place)
  {
    hide Fetched, RowsIn, Serves, CursorsAreKeys;
    var page := server(after, limit);
    FetchOne(all, server, place, after, limit);
    PageAt(all, server, place, after, limit);
    OwedSplits(all, Start(after, place), limit, page);
    hide FirstN;
    if GoesOn(page, limit) {
      LaterPagesNeverStall(all, server, place, page.nextAfter, Minus(limit, |page.rows|));
    } else {
      LastKeyOfPage(all, server, place, after, limit);
    }
  }

  /** The cursor of a page is the key of the range it ends with. */
  lemma LastKeyOfPage(all: seq<Pair>, server: Server, place: Token -> nat, after: Option<Token>, limit: Option<nat>)
    requires Serves(all, server, place) && CursorsAreKeys(server) && Start(after, place) <= |all|
    ensures var page, from := server(after, limit), Start(after, place);
            && from + |page.rows| <= |all| && |page.rows| <= |FirstN(all[from..], limit)|
            && (page.nextAfter.Some? ==> page.rows != [] && page.nextAfter.value == all[from + |page.rows| - 1].key
                                         && page.rows[0].key == all[from].key)
            && (|page.rows| < |FirstN(all[from..], limit)| ==> from + |page.rows| < |all|)
  {
    var page, from := server(after, limit), Start(after, place);
    PageAt(all, server, place, after, limit);
    if page.rows != [] {
      assert page.rows[|page.rows| - 1] == all[from..][|page.rows| - 1] && page.rows[0] == all[from..][0];
    }
  }

  /**
   With cursors that spell the last key, the scan yields exactly the first rows of the range, forward or
   reverse, unless the empty key is alone on the first page.
   */
  lemma ScanIsCompleteExactly(all: seq<Pair>, server: Server, place: Token -> nat, reverse: bool, limit: Option<nat>)
    requires Serves(all, server, place) && CursorsAreKeys(server) && InDirection(all, reverse)
    ensures RowsIn(Fetched(all, server, place, None, limit)) == FirstN(all, limit)
            <==> !EmptyKeyAlone(all, server, limit)
  {
    hide Fetched, RowsIn, Serves, CursorsAreKeys, InDirection;
    assert all[0..] == all;
    var page := server(None, limit);
    EmptyKeyIsAtAnEnd(all, reverse);
    PagingYieldsTheRange(all, server, place, None, limit);
    LastKeyOfPage(all, server, place, None, limit);
    FetchOne(all, server, place, None, limit);
    PageAt(all, server, place, None, limit);
    if GoesOn(page, limit) {
      var left := Minus(limit, |page.rows|);
      PagingYieldsTheRange(all, server, place, page.nextAfter, left);
      LaterPagesNeverStall(all, server, place, page.nextAfter, left);
      OwedSplits(all, 0, limit, page);
    }
  }

  // ---- One logical call over HTTP --------------------------------------------------------------

  /** What becomes of one POST: whether the server executed it and what the client sees. */
  datatype Wire =
    | Delivered
    | TransportError(executed: bool)
    | NotJson(executed: bool)
    | ServerError(executed: bool)
    | Refused(status: int)

  predicate Executes(w: Wire) { w.Delivered? || ((w.TransportError? || w.NotJson? || w.ServerError?) && w.executed) }

  predicate Retryable(w: Wire) { w.TransportError? || w.NotJson? || w.ServerError? }

  const POST_ATTEMPTS := 3

  /** A repeated request with one attempt id changes nothing and is answered as it was the first time. */
  ghost predicate Replays<S(!new), R>(apply: S -> (S, R)) { forall s: S :: apply(apply(s).0) == apply(s) }

  /** How many POSTs are made: up to the first that is not retryable, three at most. */
  function Made(wire: seq<Wire>): (n: nat)
    ensures n <= |wire| && (wire != [] ==> n > 0)
  {
    if wire == [] then 0 else if Retryable(wire[0]) then 1 + Made(wire[1..]) else 1
  }

  /** The POST at `n` is the last: those before it failed in transport, in the server or in its answer's form. */
  ghost predicate LastPost(wire: seq<Wire>, n: int) {
    && 0 <= n < 3 == |wire|
    && (forall i :: 0 <= i < n ==> wire[i].TransportError? || wire[i].NotJson? || wire[i].ServerError?)
    && (wire[n].Delivered? || wire[n].Refused? || n == 2)
  }

  lemma {:induction false} MadeUpTo(wire: seq<Wire>, n: nat)
    requires n < |wire| && forall i :: 0 <= i < n ==> Retryable(wire[i])
    requires !Retryable(wire[n]) || n == |wire| - 1
    ensures Made(wire) == n + 1
  {
    if n > 0 {
      assert forall i :: 0 <= i < n - 1 ==> wire[1..][i] == wire[i + 1];
      MadeUpTo(wire[1..], n - 1);
    }
  }

  /** `_post`: the call takes effect once if any of its POSTs was executed, and what returns is that effect's answer. */
  method Post<S(!new), R>(s: S, apply: S -> (S, R), wire: seq<Wire>) returns (after: S, answer: Result<R, Wire>)
    requires Replays(apply) && |wire| == POST_ATTEMPTS
    ensures after == if exists i :: 0 <= i < Made(wire) && Executes(wire[i]) then apply(s).0 else s
    ensures answer == if wire[Made(wire) - 1].Delivered? then Ok(apply(s).1) else Err(wire[Made(wire) - 1])
    ensures forall n :: LastPost(wire, n) ==> answer == if wire[n].Delivered? then Ok(apply(s).1) else Err(wire[n])
    ensures forall n :: LastPost(wire, n) ==>
              after == if wire[n].Delivered? || (exists i :: 0 <= i <= n && !wire[i].Refused? && !wire[i].Delivered?
                                                             && wire[i].executed)
                       then apply(s).0 else s
  {
    forall n | LastPost(wire, n) ensures Made(wire) == n + 1 {
      MadeUpTo(wire, n);
    }
    after := s;
    ghost var made := Made(wire);
    for i := 0 to POST_ATTEMPTS
      invariant forall j :: 0 <= j < i ==> Retryable(wire[j])
      invariant Made(wire) == i + Made(wire[i..]) && (i < POST_ATTEMPTS ==> Made(wire) >= i + 1)
      invariant after == if exists j :: 0 <= j < i && Executes(wire[j]) then apply(s).0 else s
    {
      var w := wire[i];
      assert wire[i..][1..] == wire[i + 1..];
      ghost var before := after;
      var reply := apply(after);
      if Executes(w) {
        after := reply.0;
      }
      assert Executes(w) ==> reply == apply(s);
      if w.Delivered? {
        return after, Ok(reply.1);
      }
      if !Retryable(w) {
        return after, Err(w);
      }
    }
    answer := Err(wire[POST_ATTEMPTS - 1]);
  }
}
