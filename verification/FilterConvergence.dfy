/**
 Delivery order does not matter: deltas whose updates all validate form, at every id, a choice of
 the greatest revision, so any two orders (with repeats) of the same deltas agree.
 */
module FilterConvergence {
  import opened Common
  import opened FilterModel
  import opened FilterParser
  import opened FilterDelta
  import opened FilterSnapshot
  import opened FilterRuns

  /** Every update of the document validates, the stale ones included. */
  predicate Valid(scan: Scan, doc: Document, reading: Reading) {
    && UpdatesOf(doc).Some? && DistinctIds(UpdatesOf(doc).value)
    && Parsed(scan, doc, reading, map[], UpdatesOf(doc).value).Some?
    && PatchNodes(Parsed(scan, doc, reading, map[], UpdatesOf(doc).value).value) <= MAX_NODES
  }

  /** What a document offers for one id, whatever the state it meets. */
  function Offer(scan: Scan, doc: Document, id: string): Option<Entry> {
    var us :- UpdatesOf(doc);
    var p :- PatchAt(scan, doc, REPLAY, map[], us, id);
    Some(Entry(p.revision, p.install))
  }

  /** The entry that stays: an offer replaces what is remembered only with a greater revision. */
  function Newer(a: Option<Entry>, offer: Option<Entry>): Option<Entry> {
    if offer.Some? && (a.None? || offer.value.revision > a.value.revision) then offer else a
  }

  lemma PatchIsNewer(scan: Scan, doc: Document, reading: Reading, revisions: map<string, nat>, u: Update)
    requires PatchOf(scan, doc, reading, revisions, u).Some?
    ensures !Stale(u, revisions) ==>
              PatchOf(scan, doc, reading, revisions, u) == PatchOf(scan, doc, REPLAY, map[], u)
  {
    hide Elaborate, HasKeys, ModeOf, SourceOf, RequiresSession;
  }

  lemma AcceptedPatch(s: FilterState, doc: Document, reading: Reading, u: Update)
    requires ApplyDelta(s, doc, reading).Some? && u in UpdatesOf(doc).value
    ensures PatchOf(s.scan, doc, reading, s.revisions, u).Some?
  {
    hide Header, SyntaxOfAll, PatchOf, Commit;
    var raws := Header(doc.members, "delta", "updates").value;
    AllSyntaxAgrees(raws);
    ParsedAgrees(s.scan, doc, reading, s.revisions, UpdatesOf(doc).value);
  }

  /** At each id, an accepted delta keeps the newer of what is remembered and what it offers. */
  lemma StepIsNewer(s: FilterState, doc: Document, reading: Reading, id: string)
    requires DistinctPredicates(s.predicates) && ApplyDelta(s, doc, reading).Some?
    requires Valid(s.scan, doc, REPLAY)
    ensures At(ApplyDelta(s, doc, reading).value, id) == Newer(At(s, id), Offer(s.scan, doc, id))
  {
    hide UpdatesOf, Parsed, ApplyDelta, PatchOf, LiveAt;
    StepAt(s, doc, reading, id);
    var us := UpdatesOf(doc).value;
    UpdateForIsPresent(us, id);
    var u := UpdateFor(us, id);
    if u.Some? {
      AcceptedPatch(s, doc, reading, u.value);
      PatchIsNewer(s.scan, doc, reading, s.revisions, u.value);
      ValidPatch(s.scan, doc, REPLAY, u.value);
    }
  }

  lemma ValidPatch(scan: Scan, doc: Document, reading: Reading, u: Update)
    requires Valid(scan, doc, reading) && u in UpdatesOf(doc).value
    ensures PatchOf(scan, doc, reading, map[], u).Some?
  {
    hide Header, SyntaxOfAll, PatchOf, PatchNodes;
    AllSyntaxAgrees(Header(doc.members, "delta", "updates").value);
    ParsedAgrees(scan, doc, reading, map[], UpdatesOf(doc).value);
  }

  // ---- When a delta, and a run of deltas, is accepted ------------------------------------------

  lemma {:induction false} FewerApplicable(scan: Scan, doc: Document, reading: Reading, revisions: map<string, nat>,
                                           us: seq<Update>)
    requires Parsed(scan, doc, reading, map[], us).Some?
    ensures Parsed(scan, doc, reading, revisions, us).Some?
    ensures PatchNodes(Parsed(scan, doc, reading, revisions, us).value)
         <= PatchNodes(Parsed(scan, doc, reading, map[], us).value)
  {
    hide ElaboratePredicate;
    if us != [] {
      var k := |us| - 1;
      FewerApplicable(scan, doc, reading, revisions, us[..k]);
      NodesOfAppend(Parsed(scan, doc, reading, map[], us[..k]).value, PatchOf(scan, doc, reading, map[], us[k]).value);
      NodesOfAppend(Parsed(scan, doc, reading, revisions, us[..k]).value,
                    PatchOf(scan, doc, reading, revisions, us[k]).value);
    }
  }

  /** What a delta whose updates all validate can still be rejected for; its ids are all recorded. */
  predicate Admissible(s: FilterState, doc: Document) {
    && doc.context == s.context && UpdatesOf(doc).Some?
    && TargetsNone(UpdatesOf(doc).value, s.requiredIds)
  }

  function DocIds(doc: Document): set<string> {
    if UpdatesOf(doc).Some? then Ids(UpdatesOf(doc).value) else {}
  }

  lemma AcceptedExactlyWhen(s: FilterState, doc: Document, reading: Reading)
    requires Valid(s.scan, doc, reading)
    ensures ApplyDelta(s, doc, reading).Some? <==>
              Admissible(s, doc) && |s.revisions.Keys + DocIds(doc)| <= MAX_PREDICATE_IDS
  {
    hide UpdatesOf, Parsed, PatchNodes, Commit, PatchIds, Ids;
    var us := UpdatesOf(doc).value;
    FewerApplicable(s.scan, doc, reading, s.revisions, us);
    ParsedIds(s.scan, doc, reading, s.revisions, us);
  }

  function AllIds(docs: seq<Document>): set<string> { set d, id | d in docs && id in DocIds(d) :: id }

  lemma SubsetIsSmaller<T>(a: set<T>, b: set<T>)
    requires a <= b
    ensures |a| <= |b|
  {
    assert b == a + (b - a);
  }

  lemma AllIdsOfAppend(init: seq<Document>, last: Document, ids: set<string>)
    ensures ids + AllIds(init + [last]) == ids + AllIds(init) + DocIds(last)
    ensures |ids + AllIds(init)| <= |ids + AllIds(init + [last])|
  {
    hide DocIds;
    assert AllIds(init + [last]) == AllIds(init) + DocIds(last);
    SubsetIsSmaller(ids + AllIds(init), ids + AllIds(init + [last]));
  }

  /** The ids that an accepted run leaves recorded. */
  lemma {:induction false} RunRecords(s: FilterState, docs: seq<Document>, reading: Reading)
    requires DistinctPredicates(s.predicates) && ApplyAll(s, docs, reading).Some?
    ensures var t := ApplyAll(s, docs, reading).value;
            && DistinctPredicates(t.predicates)
            && t == s.(predicates := t.predicates, revisions := t.revisions)
            && t.revisions.Keys == s.revisions.Keys + AllIds(docs)
  {
    hide ApplyDelta, UpdatesOf, DocIds;
    if docs != [] {
      var k := |docs| - 1;
      RunRecords(s, docs[..k], reading);
      assert docs == docs[..k] + [docs[k]];
      AllIdsOfAppend(docs[..k], docs[k], s.revisions.Keys);
      var t := ApplyAll(s, docs[..k], reading).value;
      AcceptedHasUpdates(t, docs[k], reading);
      StepAt(t, docs[k], reading, "");
    }
  }

  lemma OneMoreAccepted(s: FilterState, docs: seq<Document>, last: Document, reading: Reading)
    requires DistinctPredicates(s.predicates) && ApplyAll(s, docs, reading).Some? && Valid(s.scan, last, reading)
    ensures ApplyDelta(ApplyAll(s, docs, reading).value, last, reading).Some? <==>
              Admissible(s, last) && |s.revisions.Keys + AllIds(docs) + DocIds(last)| <= MAX_PREDICATE_IDS
  {
    hide Valid, ApplyDelta, UpdatesOf, AllIds, DocIds, TargetsNone, ApplyAll;
    RunRecords(s, docs, reading);
    AcceptedExactlyWhen(ApplyAll(s, docs, reading).value, last, reading);
  }

  /** A whole run of valid deltas is accepted exactly when none is inadmissible and all ids fit together. */
  lemma {:induction false} RunAcceptedExactlyWhen(s: FilterState, docs: seq<Document>, reading: Reading)
    requires DistinctPredicates(s.predicates) && |s.revisions.Keys| <= MAX_PREDICATE_IDS
    requires forall d <- docs :: Valid(s.scan, d, reading)
    ensures ApplyAll(s, docs, reading).Some? <==>
              (forall d <- docs :: Admissible(s, d)) && |s.revisions.Keys + AllIds(docs)| <= MAX_PREDICATE_IDS
  {
    hide Valid, ApplyDelta, AllIds, DocIds, DistinctPredicates, Admissible;
    if docs == [] {
      assert s.revisions.Keys + AllIds(docs) == s.revisions.Keys by {
        NoIds();
      }
    } else {
      var k := |docs| - 1;
      var init, last := docs[..k], docs[k];
      assert docs == init + [last];
      assert forall d :: d in docs <==> d in init || d == last;
      RunAcceptedExactlyWhen(s, init, reading);
      AllIdsOfAppend(init, last, s.revisions.Keys);
      if ApplyAll(s, init, reading).Some? {
        OneMoreAccepted(s, init, last, reading);
      }
    }
  }

  lemma NoIds()
    ensures AllIds([]) == {}
  {
  }

  lemma AcceptedHasUpdates(s: FilterState, doc: Document, reading: Reading)
    requires ApplyDelta(s, doc, reading).Some?
    ensures UpdatesOf(doc).Some? && DocIds(doc) == Ids(UpdatesOf(doc).value)
  {
    hide UpdatesOf, Parsed, PatchNodes, Commit;
  }

  // ---- The greatest revision wins --------------------------------------------------------------

  function Fold(a: Option<Entry>, offers: seq<Option<Entry>>): Option<Entry> {
    if offers == [] then a else Newer(Fold(a, offers[..|offers| - 1]), offers[|offers| - 1])
  }

  function Offers(scan: Scan, docs: seq<Document>, id: string): seq<Option<Entry>> {
    seq(|docs|, i requires 0 <= i < |docs| => Offer(scan, docs[i], id))
  }

  /** `r` is what was remembered first, unless a greater revision was offered; then it is the greatest offer. */
  ghost predicate IsGreatest(r: Option<Entry>, a: Option<Entry>, offers: set<Option<Entry>>) {
    && (r == a || r in offers)
    && (forall o <- offers :: o.Some? ==> r.Some? && o.value.revision <= r.value.revision)
    && (a.Some? ==>
        r.Some? && a.value.revision <= r.value.revision && (a.value.revision == r.value.revision ==> r == a))
  }

  lemma {:induction false} FoldIsGreatest(a: Option<Entry>, offers: seq<Option<Entry>>)
    ensures IsGreatest(Fold(a, offers), a, set o <- offers)
  {
    if offers != [] {
      var k := |offers| - 1;
      FoldIsGreatest(a, offers[..k]);
      assert offers == offers[..k] + [offers[k]];
      assert (set o <- offers) == (set o <- offers[..k]) + {offers[k]};
    }
  }

  /** One (id, revision) always means one update. */
  ghost predicate CoherentOffers(offers: set<Option<Entry>>) {
    forall o, p :: o in offers && p in offers && o.Some? && p.Some? && o.value.revision == p.value.revision ==> o == p
  }

  lemma GreatestIsUnique(r: Option<Entry>, q: Option<Entry>, a: Option<Entry>, offers: set<Option<Entry>>)
    requires IsGreatest(r, a, offers) && IsGreatest(q, a, offers) && CoherentOffers(offers)
    ensures r == q
  {
    if r.Some? && q.Some? {
      assert r.value.revision == q.value.revision;
    }
  }

  lemma {:induction false} RunIsFold(s: FilterState, docs: seq<Document>, reading: Reading, id: string)
    requires DistinctPredicates(s.predicates) && ApplyAll(s, docs, reading).Some?
    requires forall d <- docs :: Valid(s.scan, d, REPLAY)
    ensures At(ApplyAll(s, docs, reading).value, id) == Fold(At(s, id), Offers(s.scan, docs, id))
    ensures DistinctPredicates(ApplyAll(s, docs, reading).value.predicates)
    ensures ApplyAll(s, docs, reading).value.scan == s.scan
  {
    hide At, Valid, ApplyDelta, Offer, Newer;
    if docs != [] {
      var k := |docs| - 1;
      var t := ApplyAll(s, docs[..k], reading).value;
      RunIsFold(s, docs[..k], reading, id);
      StepAt(t, docs[k], reading, id);
      StepIsNewer(t, docs[k], reading, id);
      var offers := Offers(s.scan, docs, id);
      assert offers[..k] == Offers(s.scan, docs[..k], id);
    }
  }

  lemma ValidWhenReplayed(scan: Scan, doc: Document, reading: Reading)
    requires Valid(scan, doc, reading)
    ensures Valid(scan, doc, REPLAY)
  {
    hide UpdatesOf, Parsed, PatchNodes;
    ReplayedPatches(scan, doc, reading, map[], UpdatesOf(doc).value);
  }

  ghost predicate Coherent(scan: Scan, docs: seq<Document>) {
    forall id: string :: CoherentOffers(set o <- Offers(scan, docs, id))
  }

  /**
   Two orders, with repeats, of the same valid and coherent deltas are accepted or rejected alike, and
   end with the same revision map and the same live-predicate map: at each id, the greatest revision.
   */
  lemma Convergence(s: FilterState, docs: seq<Document>, again: seq<Document>, reading: Reading)
    requires Inv(s)
    requires forall d :: d in docs <==> d in again
    requires forall d <- docs :: Valid(s.scan, d, reading)
    requires Coherent(s.scan, docs)
    ensures ApplyAll(s, docs, reading).Some? <==> ApplyAll(s, again, reading).Some?
    ensures ApplyAll(s, docs, reading).Some? ==>
              var t, u := ApplyAll(s, docs, reading).value, ApplyAll(s, again, reading).value;
              && t.revisions == u.revisions
              && forall id :: LiveAt(t.predicates, id) == LiveAt(u.predicates, id)
    ensures ApplyAll(s, docs, reading).Some? ==>
              forall id :: IsGreatest(At(ApplyAll(s, docs, reading).value, id), At(s, id),
                                      set o <- Offers(s.scan, docs, id))
  {
    hide Valid, ApplyAll, Offers, IsGreatest, LiveAt, Sound, Admissible, At, AllIds, Coherent;
    assert |s.revisions| == |s.revisions.Keys|;
    RunAcceptedExactlyWhen(s, docs, reading);
    RunAcceptedExactlyWhen(s, again, reading);
    SameIds(docs, again);
    if ApplyAll(s, docs, reading).Some? {
      forall id: string
        ensures At(ApplyAll(s, docs, reading).value, id) == At(ApplyAll(s, again, reading).value, id)
        ensures IsGreatest(At(ApplyAll(s, docs, reading).value, id), At(s, id), set o <- Offers(s.scan, docs, id))
      {
        SameEverywhere(s, docs, again, reading, id);
      }
      AllKeepsInv(s, docs, reading);
      AllKeepsInv(s, again, reading);
      SameAtEveryId(ApplyAll(s, docs, reading).value, ApplyAll(s, again, reading).value);
    }
  }

  lemma SameIds(docs: seq<Document>, again: seq<Document>)
    requires forall d :: d in docs <==> d in again
    ensures AllIds(docs) == AllIds(again)
  {
    hide DocIds;
  }

  /** Two states that agree at every id have the same revision map and the same live predicates. */
  lemma SameAtEveryId(t: FilterState, u: FilterState)
    requires Inv(t) && Inv(u) && forall id: string :: At(t, id) == At(u, id)
    ensures t.revisions == u.revisions
    ensures forall id :: LiveAt(t.predicates, id) == LiveAt(u.predicates, id)
  {
    hide Sound, IndexOf;
    forall id: string
      ensures id in t.revisions <==> id in u.revisions
      ensures id in t.revisions ==> t.revisions[id] == u.revisions[id]
      ensures LiveAt(t.predicates, id) == LiveAt(u.predicates, id)
    {
      assert At(t, id) == At(u, id);
    }
  }

  lemma SameEverywhere(s: FilterState, docs: seq<Document>, again: seq<Document>, reading: Reading, id: string)
    requires DistinctPredicates(s.predicates)
    requires ApplyAll(s, docs, reading).Some? && ApplyAll(s, again, reading).Some?
    requires forall d :: d in docs <==> d in again
    requires forall d <- docs :: Valid(s.scan, d, reading)
    requires Coherent(s.scan, docs)
    ensures At(ApplyAll(s, docs, reading).value, id) == At(ApplyAll(s, again, reading).value, id)
    ensures IsGreatest(At(ApplyAll(s, docs, reading).value, id), At(s, id), set o <- Offers(s.scan, docs, id))
  {
    hide Valid, ApplyAll, Offer, Newer, IsGreatest, CoherentOffers, Fold, At;
    forall d | d in docs
      ensures Valid(s.scan, d, REPLAY)
    {
      ValidWhenReplayed(s.scan, d, reading);
    }
    RunIsFold(s, docs, reading, id);
    RunIsFold(s, again, reading, id);
    var a, b := Offers(s.scan, docs, id), Offers(s.scan, again, id);
    SameOffers(s.scan, docs, again, id);
    FoldIsGreatest(At(s, id), a);
    FoldIsGreatest(At(s, id), b);
    GreatestIsUnique(Fold(At(s, id), a), Fold(At(s, id), b), At(s, id), set o <- a);
  }

  lemma SameOffers(scan: Scan, docs: seq<Document>, again: seq<Document>, id: string)
    requires forall d :: d in docs <==> d in again
    ensures (set o <- Offers(scan, docs, id)) == (set o <- Offers(scan, again, id))
  {
    hide Offer;
    SomeOffers(scan, docs, again, id);
    SomeOffers(scan, again, docs, id);
  }

  lemma SomeOffers(scan: Scan, docs: seq<Document>, again: seq<Document>, id: string)
    requires forall d <- docs :: d in again
    ensures (set o <- Offers(scan, docs, id)) <= (set o <- Offers(scan, again, id))
  {
    hide Offer;
    forall o | o in Offers(scan, docs, id)
      ensures o in Offers(scan, again, id)
    {
      var i :| 0 <= i < |docs| && Offers(scan, docs, id)[i] == o;
      assert docs[i] in again;
      var j :| 0 <= j < |again| && again[j] == docs[i];
      assert Offers(scan, again, id)[j] == o;
    }
  }

  lemma {:induction false} AllKeepsInv(s: FilterState, docs: seq<Document>, reading: Reading)
    requires Inv(s) && ApplyAll(s, docs, reading).Some?
    ensures Inv(ApplyAll(s, docs, reading).value)
  {
    hide ApplyDelta, Inv;
    if docs != [] {
      AllKeepsInv(s, docs[..|docs| - 1], reading);
      StepKeepsInv(ApplyAll(s, docs[..|docs| - 1], reading).value, docs[|docs| - 1], reading);
    }
  }
}
