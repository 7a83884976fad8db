/**
 Where the compacted history falls short: a stale update is never validated when it arrives, but it
 becomes applicable when the delta that made it stale has been compacted away.
 */
module FilterHistoryLimits {
  import opened Common
  import opened Arrow
  import opened FilterModel
  import opened FilterParser
  import opened FilterDelta
  import opened FilterRuns
  import opened FilterConvergence
  import opened FilterHistory
  import opened FilterReplay

  // ---- Deltas of removals and stale updates ----------------------------------------------------

  lemma {:induction false} RemovalsAreParsed(scan: Scan, doc: Document, reading: Reading, revisions: map<string, nat>,
                                             us: seq<Update>)
    requires forall i :: 0 <= i < |us| ==> Stale(us[i], revisions) || us[i].body.None?
    ensures var ps := Parsed(scan, doc, reading, revisions, us); ps.Some? && PatchNodes(ps.value) == 0
  {
    if us == [] {
      NoNodes();
    } else {
      var init := us[..|us| - 1];
      RemovalsAreParsed(scan, doc, reading, revisions, init);
      NodesOfAppend(Parsed(scan, doc, reading, revisions, init).value,
                    PatchOf(scan, doc, reading, revisions, us[|us| - 1]).value);
      NodesOfOne(PatchOf(scan, doc, reading, revisions, us[|us| - 1]));
      NoNodes();
      hide PatchNodes;
    }
  }

  /** A delta of removals and stale updates is accepted whether or not the stale ones validate. */
  lemma RemovalsAreAccepted(s: FilterState, doc: Document, reading: Reading)
    requires Admissible(s, doc) && DistinctIds(UpdatesOf(doc).value)
             && |s.revisions.Keys + DocIds(doc)| <= MAX_PREDICATE_IDS
    requires var us := UpdatesOf(doc).value; forall i :: 0 <= i < |us| ==> Stale(us[i], s.revisions) || us[i].body.None?
    ensures ApplyDelta(s, doc, reading).Some?
  {
    hide UpdatesOf, Parsed, PatchNodes, Commit, DistinctIds, TargetsNone, PatchIds, Ids;
    RemovalsAreParsed(s.scan, doc, reading, s.revisions, UpdatesOf(doc).value);
    ParsedIds(s.scan, doc, reading, s.revisions, UpdatesOf(doc).value);
  }

  // ---- A stream whose history cannot be read again ---------------------------------------------

  /** Remove `a`; a stale upsert of `a` beside a removal of `b`; remove `a` again. */
  predicate Example(d1: Document, d2: Document, d3: Document, a: string, p: nat, u: Update, b: string, e: nat, n: nat) {
    && UpdatesOf(d1) == Some([Update(a, p, None)])
    && UpdatesOf(d2) == Some([u, Update(b, e, None)]) && u.id == a != b && u.revision <= p < n
    && UpdatesOf(d3) == Some([Update(a, n, None)])
  }

  lemma RecordsOne(s: FilterState, doc: Document, reading: Reading, a: string, r: nat, other: string)
    requires Inv(s) && doc.context == s.context && UpdatesOf(doc) == Some([Update(a, r, None)]) && a !in s.requiredIds
    requires |s.revisions.Keys + {a}| <= MAX_PREDICATE_IDS && (a in s.revisions ==> s.revisions[a] < r)
    ensures ApplyDelta(s, doc, reading).Some?
    ensures var t := ApplyDelta(s, doc, reading).value;
            && Inv(t) && t.revisions.Keys == s.revisions.Keys + {a} && t.revisions[a] == r && t.context == s.context
            && t.requiredIds == s.requiredIds
            && (other != a && other in s.revisions ==> t.revisions[other] == s.revisions[other])
  {
    hide UpdatesOf, ApplyDelta, Inv, LiveAt, Offer, Sound;
    assert DocIds(doc) == {a};
    RemovalsAreAccepted(s, doc, reading);
    InvIsDistinct(s);
    StepTakes(s, doc, reading, a);
    StepTakes(s, doc, reading, other);
    StepAt(s, doc, reading, a);
    StepKeepsInv(s, doc, reading);
    assert UpdateFor([Update(a, r, None)], a) == Some(Update(a, r, None));
    UpdateForIsPresent([Update(a, r, None)], other);
  }

  lemma RecordsBeside(s: FilterState, doc: Document, reading: Reading, u: Update, b: string, e: nat)
    requires Inv(s) && doc.context == s.context && UpdatesOf(doc) == Some([u, Update(b, e, None)]) && u.id != b
    requires Stale(u, s.revisions) && b !in s.revisions && u.id !in s.requiredIds && b !in s.requiredIds
    requires |s.revisions.Keys + {b}| <= MAX_PREDICATE_IDS
    ensures ApplyDelta(s, doc, reading).Some?
    ensures var t := ApplyDelta(s, doc, reading).value;
            && Inv(t) && t.revisions.Keys == s.revisions.Keys + {b} && t.revisions[b] == e
            && t.revisions[u.id] == s.revisions[u.id] && t.context == s.context && t.requiredIds == s.requiredIds
  {
    hide UpdatesOf, ApplyDelta, Inv, LiveAt, Offer, Sound;
    var us := [u, Update(b, e, None)];
    assert DocIds(doc) == {u.id, b};
    assert s.revisions.Keys + {u.id, b} == s.revisions.Keys + {b};
    RemovalsAreAccepted(s, doc, reading);
    InvIsDistinct(s);
    UpdatesFor(u, b, e);
    StepTakes(s, doc, reading, u.id);
    StepTakes(s, doc, reading, b);
    StepAt(s, doc, reading, b);
    StepKeepsInv(s, doc, reading);
  }

  lemma UpdatesFor(u: Update, b: string, e: nat)
    requires u.id != b
    ensures UpdateFor([u, Update(b, e, None)], u.id) == Some(u)
    ensures UpdateFor([u, Update(b, e, None)], b) == Some(Update(b, e, None))
  {
    var us := [u, Update(b, e, None)];
    assert us[..1] == [u] && us[1] == Update(b, e, None);
    assert UpdateFor([u], u.id) == Some(u);
  }

  lemma KeepOfAppend(docs: seq<Document>, last: Document, wanted: set<Revision>)
    ensures Keep(docs + [last], wanted)
         == Keep(docs, wanted) + if Carried(last) * (wanted - CarriedBy(docs)) != {} then [last] else []
    ensures CarriedBy(docs + [last]) == CarriedBy(docs) + Carried(last)
    ensures Keep([], wanted) == [] && CarriedBy([]) == {}
  {
    hide Carried;
    assert (docs + [last])[..|docs|] == docs;
  }

  lemma CarriedByExample(d1: Document, d2: Document, d3: Document, a: string, p: nat, u: Update, b: string, e: nat,
                         n: nat)
    requires Example(d1, d2, d3, a, p, u, b, e, n)
    ensures Carried(d1) == {(a, p)} && Carried(d2) == {(a, u.revision), (b, e)} && Carried(d3) == {(a, n)}
  {
    hide UpdatesOf;
  }

  /** The history of each turn; after the last the delta that made the upsert stale is gone. */
  lemma HistoryOfExample(d1: Document, d2: Document, d3: Document, a: string, p: nat, u: Update, b: string, e: nat,
                         n: nat, s: FilterState)
    requires Example(d1, d2, d3, a, p, u, b, e, n) && a in s.revisions
    ensures s.revisions[a] == p ==> Keep([d1], Current(s)) == [d1]
    ensures s.revisions[a] == p && b in s.revisions && s.revisions[b] == e ==> Keep([d1, d2], Current(s)) == [d1, d2]
    ensures s.revisions[a] == n && b in s.revisions && s.revisions[b] == e ==>
            Keep([d1, d2, d3], Current(s)) == [d2, d3]
  {
    hide Carried, Keep, CarriedBy, UpdatesOf;
    var w := Current(s);
    CarriedByExample(d1, d2, d3, a, p, u, b, e, n);
    KeepOfAppend([], d1, w);
    KeepOfAppend([d1], d2, w);
    KeepOfAppend([d1, d2], d3, w);
    assert [] + [d1] == [d1] && [d1] + [d2] == [d1, d2] && [d1, d2] + [d3] == [d1, d2, d3];
    assert (a, s.revisions[a]) in w;
    if b in s.revisions && s.revisions[b] == e {
      assert (b, e) in Carried(d2) * (w - CarriedBy([d1]));
    }
    if s.revisions[a] == p {
      assert (a, p) in Carried(d1) * (w - {});
    } else if s.revisions[a] == n {
      assert Carried(d1) * (w - {}) == {};
      assert (a, n) in Carried(d3) * (w - CarriedBy([d1, d2]));
    }
  }

  lemma StreamOfAppend(snapshot: FilterState, docs: seq<Document>, doc: Document, reading: Reading)
    requires StreamRun(snapshot, docs, reading).Some?
    requires ApplyDelta(StreamRun(snapshot, docs, reading).value.filters, doc, reading).Some?
    ensures var before := StreamRun(snapshot, docs, reading).value;
            var t := ApplyDelta(before.filters, doc, reading).value;
            StreamRun(snapshot, docs + [doc], reading)
            == Some(Stream(t, Keep(before.history + [doc], Current(t)), IdOrder(t.predicates)))
  {
    hide ApplyDelta, Keep, Current;
    assert (docs + [doc])[..|docs|] == docs;
  }

  lemma StreamStart(snapshot: FilterState, reading: Reading)
    ensures StreamRun(snapshot, [], reading) == Some(Stream(snapshot, [], IdOrder(snapshot.predicates)))
  {
  }

  lemma StreamOfExample(snapshot: FilterState, reading: Reading, d1: Document, d2: Document, d3: Document,
                        a: string, p: nat, u: Update, b: string, e: nat, n: nat)
    requires Inv(snapshot) && Example(d1, d2, d3, a, p, u, b, e, n)
    requires d1.context == d2.context == d3.context == snapshot.context
    requires a !in snapshot.revisions && b !in snapshot.revisions && |snapshot.revisions| + 2 <= MAX_PREDICATE_IDS
    ensures var r := StreamRun(snapshot, [d1, d2, d3], reading);
            r.Some? && r.value.history == [d2, d3]
  {
    hide ApplyDelta, Keep, Current, StreamRun, UpdatesOf, Inv;
    StatesOfExample(snapshot, reading, d1, d2, d3, a, p, u, b, e, n);
    var s1 := ApplyDelta(snapshot, d1, reading).value;
    var s2 := ApplyDelta(s1, d2, reading).value;
    var s3 := ApplyDelta(s2, d3, reading).value;
    HistoryOfExample(d1, d2, d3, a, p, u, b, e, n, s1);
    HistoryOfExample(d1, d2, d3, a, p, u, b, e, n, s2);
    HistoryOfExample(d1, d2, d3, a, p, u, b, e, n, s3);
    hide Example;
    StreamStart(snapshot, reading);
    assert [] + [d1] == [d1] && [d1] + [d2] == [d1, d2] && [d1, d2] + [d3] == [d1, d2, d3];
    StreamOfAppend(snapshot, [], d1, reading);
    StreamOfAppend(snapshot, [d1], d2, reading);
    StreamOfAppend(snapshot, [d1, d2], d3, reading);
  }

  lemma StatesOfExample(snapshot: FilterState, reading: Reading, d1: Document, d2: Document, d3: Document,
                        a: string, p: nat, u: Update, b: string, e: nat, n: nat)
    requires Inv(snapshot) && Example(d1, d2, d3, a, p, u, b, e, n)
    requires d1.context == d2.context == d3.context == snapshot.context
    requires a !in snapshot.revisions && b !in snapshot.revisions && |snapshot.revisions| + 2 <= MAX_PREDICATE_IDS
    ensures var r1 := ApplyDelta(snapshot, d1, reading);
            r1.Some? && a in r1.value.revisions && r1.value.revisions[a] == p
            && var r2 := ApplyDelta(r1.value, d2, reading);
               r2.Some? && a in r2.value.revisions && r2.value.revisions[a] == p && b in r2.value.revisions
                   && r2.value.revisions[b] == e
               && var r3 := ApplyDelta(r2.value, d3, reading);
                  r3.Some? && a in r3.value.revisions && r3.value.revisions[a] == n && b in r3.value.revisions
                      && r3.value.revisions[b] == e
  {
    hide ApplyDelta, UpdatesOf, Inv;
    NotRequired(snapshot, a);
    NotRequired(snapshot, b);
    assert |snapshot.revisions| == |snapshot.revisions.Keys|;
    RecordsOne(snapshot, d1, reading, a, p, b);
    LaterStates(snapshot.revisions.Keys, ApplyDelta(snapshot, d1, reading).value, reading, d2, d3, a, p, u, b, e, n);
  }

  lemma LaterStates(before: set<string>, s1: FilterState, reading: Reading, d2: Document, d3: Document,
                    a: string, p: nat, u: Update, b: string, e: nat, n: nat)
    requires Inv(s1) && s1.revisions.Keys == before + {a} && s1.revisions[a] == p && |before| + 2 <= MAX_PREDICATE_IDS
    requires a !in s1.requiredIds && b !in s1.requiredIds && b !in before && d2.context == d3.context == s1.context
    requires UpdatesOf(d2) == Some([u, Update(b, e, None)]) && u.id == a != b && u.revision <= p < n
    requires UpdatesOf(d3) == Some([Update(a, n, None)])
    ensures var r2 := ApplyDelta(s1, d2, reading);
            r2.Some? && a in r2.value.revisions && r2.value.revisions[a] == p && b in r2.value.revisions
                && r2.value.revisions[b] == e
            && var r3 := ApplyDelta(r2.value, d3, reading);
               r3.Some? && a in r3.value.revisions && r3.value.revisions[a] == n && b in r3.value.revisions
                   && r3.value.revisions[b] == e
  {
    hide ApplyDelta, UpdatesOf, Inv;
    assert |s1.revisions.Keys + {b}| <= |before| + 2;
    RecordsBeside(s1, d2, reading, u, b, e);
    var s2 := ApplyDelta(s1, d2, reading).value;
    assert s2.revisions.Keys + {a} == s2.revisions.Keys == s1.revisions.Keys + {b};
    RecordsOne(s2, d3, reading, a, n, b);
  }

  lemma NotRequired(s: FilterState, id: string)
    requires Inv(s) && id !in s.revisions
    ensures id !in s.requiredIds
  {
    hide Sound, LiveAt;
  }

  /**
   From any snapshot with room for two more ids, for any such ids and revisions: the stream accepts all three
   deltas, carries on the last two, and the next turn refuses them because the stale update does not validate.
   */
  lemma StaleUpdateBreaksReplay(snapshot: FilterState, reading: Reading, d1: Document, d2: Document, d3: Document,
                                a: string, p: nat, u: Update, b: string, e: nat, n: nat)
    requires Inv(snapshot) && Example(d1, d2, d3, a, p, u, b, e, n)
    requires d1.context == d2.context == d3.context == snapshot.context
    requires a !in snapshot.revisions && b !in snapshot.revisions && |snapshot.revisions| + 2 <= MAX_PREDICATE_IDS
    requires PatchOf(snapshot.scan, d2, REPLAY, map[], u).None?
    ensures var r := StreamRun(snapshot, [d1, d2, d3], reading);
            r.Some? && r.value.history == [d2, d3] && ReplayHistory(snapshot, r.value.history, r.value.order) == None
  {
    hide UpdatesOf, StreamRun, ReplayHistory, PatchOf, Inv;
    StreamOfExample(snapshot, reading, d1, d2, d3, a, p, u, b, e, n);
    CompactedHistoryReplaysExactly(snapshot, [d1, d2, d3], reading);
    var history := [d2, d3];
    assert history[..0] == [] && history[0] == d2;
    assert u in UpdatesOf(d2).value;
    assert !Covered(snapshot, [], u.id, u.revision);
    assert !Rereads(snapshot, history[..0], history[0]);
  }

  // ---- Such documents exist --------------------------------------------------------------------

  function Removal(id: string, revision: nat): Json {
    JObject(map["operation" := JString("remove"), "id" := JString(id), "revision" := JInt(revision)])
  }

  /** An upsert whose expression object is empty. */
  function BrokenUpsert(id: string, revision: nat): Members {
    map["operation" := JString("upsert"), "id" := JString(id), "revision" := JInt(revision),
        "mode" := JString("advisory"), "source" := JString("join"), "expression" := JObject(map[])]
  }

  const EMPTY_ROW: OneRow := RowBatch(Schema([], map[]), [])

  function DeltaOf(context: Context, us: seq<Json>): Document {
    Document(context, EMPTY_ROW,
             map["encoding" := JString("vgi.filters.v2"), "semantics" := JString("vgi.duckdb.standard.v1"),
                 "kind" := JString("delta"), "updates" := JArray(us)])
  }

  lemma RemovalSyntax(id: string, revision: nat)
    requires ValidId(JString(id)) && revision <= UINT64_MAX
    ensures SyntaxOf(Removal(id, revision)) == Some(Update(id, revision, None))
  {
    hide ValidId;
    var m := Removal(id, revision).members;
    assert m["operation"] == JString("remove") && m["id"] == JString(id) && m["revision"] == JInt(revision);
    assert m.Keys == {"operation", "id", "revision"};
  }

  lemma BrokenUpsertSyntax(id: string, revision: nat)
    requires ValidId(JString(id)) && revision <= UINT64_MAX
    ensures SyntaxOf(JObject(BrokenUpsert(id, revision)))
            == Some(Update(id, revision, Some(BrokenUpsert(id, revision))))
  {
    hide ValidId;
    var m := BrokenUpsert(id, revision);
    assert m["operation"].s == "upsert" && "upsert" != "remove";
    assert m["id"] == JString(id) && m["revision"] == JInt(revision) && m["expression"].JObject?;
    assert m.Keys == {"operation", "id", "revision", "mode", "source", "expression"};
    assert m["source"].s == "join" && SourceOf("join") == Some(Join);
    assert m["mode"].s == "advisory" && ModeOf("advisory") == Some(Advisory);
  }

  lemma BrokenUpsertNeverValidates(scan: Scan, doc: Document, id: string, revision: nat)
    ensures PatchOf(scan, doc, REPLAY, map[], Update(id, revision, Some(BrokenUpsert(id, revision)))).None?
  {
    hide ModeOf, SourceOf;
    assert KindOf(map[]) == None;
    assert Elaborate(scan, doc.row, BrokenUpsert(id, revision)["expression"], true) == None;
  }

  lemma UpdatesOfDelta(context: Context, raws: seq<Json>)
    ensures UpdatesOf(DeltaOf(context, raws)) == SyntaxOfAll(raws)
  {
    hide SyntaxOfAll;
  }

  lemma SyntaxOfAppend(raws: seq<Json>, raw: Json)
    ensures SyntaxOfAll(raws).Some? && SyntaxOf(raw).Some? ==>
              SyntaxOfAll(raws + [raw]) == Some(SyntaxOfAll(raws).value + [SyntaxOf(raw).value])
    ensures SyntaxOfAll([]) == Some([])
  {
    hide SyntaxOf;
    assert (raws + [raw])[..|raws|] == raws;
  }

  lemma SyntaxOfTwo(x: Json, y: Json, u: Update, v: Update)
    requires SyntaxOf(x) == Some(u) && SyntaxOf(y) == Some(v)
    ensures SyntaxOfAll([x]) == Some([u]) && SyntaxOfAll([x, y]) == Some([u, v])
  {
    hide SyntaxOf, SyntaxOfAll;
    SyntaxOfAppend([], x);
    SyntaxOfAppend([x], y);
    assert [] + [x] == [x] && [x] + [y] == [x, y] && [] + [u] == [u] && [u] + [v] == [u, v];
  }

  /** For all ids and revisions there are documents of this kind whose stale update does not validate. */
  lemma ExampleExists(scan: Scan, context: Context, a: string, p: nat, q: nat, b: string, e: nat, n: nat)
    requires ValidId(JString(a)) && ValidId(JString(b)) && a != b && q <= p < n <= UINT64_MAX && e <= UINT64_MAX
    ensures var d1, d2, d3 := DeltaOf(context, [Removal(a, p)]),
              DeltaOf(context, [JObject(BrokenUpsert(a, q)), Removal(b, e)]), DeltaOf(context, [Removal(a, n)]);
            var u := Update(a, q, Some(BrokenUpsert(a, q)));
            && Example(d1, d2, d3, a, p, u, b, e, n) && d1.context == d2.context == d3.context == context
            && PatchOf(scan, d2, REPLAY, map[], u).None?
  {
    hide SyntaxOf, SyntaxOfAll, UpdatesOf, Removal, BrokenUpsert, PatchOf, ValidId;
    RemovalSyntax(a, p);
    RemovalSyntax(a, n);
    RemovalSyntax(b, e);
    BrokenUpsertSyntax(a, q);
    var broken := JObject(BrokenUpsert(a, q));
    var u := Update(a, q, Some(BrokenUpsert(a, q)));
    SyntaxOfTwo(Removal(a, p), broken, Update(a, p, None), u);
    SyntaxOfTwo(Removal(a, n), broken, Update(a, n, None), u);
    SyntaxOfTwo(broken, Removal(b, e), u, Update(b, e, None));
    UpdatesOfDelta(context, [Removal(a, p)]);
    UpdatesOfDelta(context, [broken, Removal(b, e)]);
    UpdatesOfDelta(context, [Removal(a, n)]);
    BrokenUpsertNeverValidates(scan, DeltaOf(context, [broken, Removal(b, e)]), a, q);
  }
}
