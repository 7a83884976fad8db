/**
 Which snapshots and deltas are accepted, and what they leave, said on the documents themselves: the members they
 must have, the predicates they must spell, and the place each predicate ends up in.
 */
module FilterMessages {
  import opened Common
  import opened FilterModel
  import opened FilterParser
  import opened FilterDocument
  import opened FilterDelta
  import opened FilterSnapshot
  import opened FilterRuns
  import Bytes

  // ---- Headers ---------------------------------------------------------------------------------

  predicate IsMessage(m: Members, kind: string, member: string, items: seq<Json>)
    requires member !in {"encoding", "semantics", "kind"}
  {
    m == map["encoding" := JString("vgi.filters.v2"), "semantics" := JString("vgi.duckdb.standard.v1"),
             "kind" := JString(kind), member := JArray(items)]
  }

  lemma HeaderExactly(m: Members, kind: string, member: string, items: seq<Json>)
    requires member !in {"encoding", "semantics", "kind"}
    ensures Header(m, kind, member) == Some(items) <==> IsMessage(m, kind, member, items)
  {
    if Header(m, kind, member) == Some(items) {
      assert m.Keys == {"encoding", "semantics", "kind", member};
    }
  }

  // ---- Snapshots -------------------------------------------------------------------------------

  /** The predicates a snapshot spells, and that they may be installed. */
  ghost predicate SpellsSnapshot(scan: Scan, doc: Document, reading: Reading, ps: seq<Predicate>) {
    && "predicates" in doc.members && doc.members["predicates"].JArray?
    && var items := doc.members["predicates"].items;
       && IsMessage(doc.members, "snapshot", "predicates", items)
       && |items| == |ps| <= 1024
       && (forall i :: 0 <= i < |ps| ==>
             && items[i].JObject? && SpellsPredicate(items[i].members, ps[i], false)
             && Admits(scan, doc.row, doc.context, reading, ps[i]) && ps[i].revision == 0)
       && (forall i, j :: 0 <= i < j < |ps| ==> ps[i].id != ps[j].id)
       && TotalNodes(ps) <= 10_000
  }

  /** Every live id is recorded at revision 0, and no other; those of required predicates are required. */
  ghost predicate IsInitial(scan: Scan, context: Context, t: FilterState) {
    && t.scan == scan && t.context == context
    && (forall id: string :: id in t.revisions <==> exists p <- t.predicates :: p.id == id)
    && (forall id <- t.revisions.Keys :: t.revisions[id] == 0)
    && (forall id: string :: id in t.requiredIds <==> exists p <- t.predicates :: p.id == id && p.mode.Required?)
  }

  lemma InitialIs(scan: Scan, context: Context, t: FilterState)
    ensures t == InitialState(scan, context, t.predicates) <==> IsInitial(scan, context, t)
    ensures forall ps :: InitialState(scan, context, ps).predicates == ps
  {
    var u := InitialState(scan, context, t.predicates);
    if IsInitial(scan, context, t) {
      assert t.revisions == u.revisions && t.requiredIds == u.requiredIds;
    }
  }

  lemma {:induction false} EntriesExactly(scan: Scan, doc: Document, reading: Reading, raws: seq<Json>,
                                          ps: seq<Predicate>)
    ensures EntriesOf(scan, doc, reading, raws) == Some(ps)
            <==> && |raws| == |ps|
                 && forall i :: 0 <= i < |ps| ==>
                      && raws[i].JObject? && SpellsPredicate(raws[i].members, ps[i], false)
                      && Admits(scan, doc.row, doc.context, reading, ps[i]) && ps[i].revision == 0
  {
    hide ElaboratePredicate, SpellsPredicate, Admits;
    if raws != [] && |raws| == |ps| {
      var n := |raws| - 1;
      EntriesExactly(scan, doc, reading, raws[..n], ps[..n]);
      assert ps == ps[..n] + [ps[n]];
      if raws[n].JObject? {
        PredicateExactly(scan, doc.row, doc.context, reading, raws[n].members, false, ps[n]);
      }
      OneMoreEntry(scan, doc, reading, raws, ps);
    }
  }

  lemma OneMoreEntry(scan: Scan, doc: Document, reading: Reading, raws: seq<Json>, ps: seq<Predicate>)
    requires |raws| == |ps| > 0
    ensures var n := |raws| - 1;
            EntriesOf(scan, doc, reading, raws) == Some(ps)
            <==> EntriesOf(scan, doc, reading, raws[..n]) == Some(ps[..n])
                 && EntryOf(scan, doc, reading, raws[n]) == Some(ps[n])
  {
    hide EntryOf;
    var n := |raws| - 1;
    assert ps == ps[..n] + [ps[n]];
  }

  /**
   A snapshot is accepted exactly when it spells admissible predicates of revision 0 with distinct ids within the
   limits; and it installs exactly them, in order.
   */
  lemma SnapshotExactly(scan: Scan, doc: Document, reading: Reading, t: FilterState)
    ensures ApplySnapshot(scan, doc, reading) == Some(t)
            <==> SpellsSnapshot(scan, doc, reading, t.predicates) && IsInitial(scan, doc.context, t)
  {
    InitialIs(scan, doc.context, t);
    hide IsInitial, InitialState;
    hide EntriesOf, SpellsPredicate, Admits, TotalNodes, Header, IsMessage;
    if "predicates" in doc.members && doc.members["predicates"].JArray? {
      HeaderExactly(doc.members, "snapshot", "predicates", doc.members["predicates"].items);
      EntriesExactly(scan, doc, reading, doc.members["predicates"].items, t.predicates);
    }
    HeaderItems(doc.members, "snapshot", "predicates");
  }

  lemma HeaderItems(m: Members, kind: string, member: string)
    ensures Header(m, kind, member).Some? ==>
              member in m && m[member].JArray? && Header(m, kind, member) == Some(m[member].items)
  {
  }

  // ---- Updates ---------------------------------------------------------------------------------

  /** A removal names an id and a revision; an upsert is the document of an advisory predicate, which may not be one. */
  ghost predicate SpellsUpdate(raw: Json, u: Update) {
    && raw.JObject? && GoodId(u.id) && u.revision <= UINT64_MAX
    && match u.body
       case None =>
         raw.members == map["operation" := JString("remove"), "id" := JString(u.id), "revision" := JInt(u.revision)]
       case Some(m) =>
         && raw.members == m
         && m.Keys == {"operation", "id", "revision", "mode", "source", "expression"}
         && m["operation"] == JString("upsert") && m["id"] == JString(u.id) && m["revision"] == JInt(u.revision)
         && m["mode"] == JString("advisory") && (exists source :: m["source"] == JString(SourceText(source)))
         && m["expression"].JObject?
  }

  lemma UpdateExactly(raw: Json, u: Update)
    ensures SyntaxOf(raw) == Some(u) <==> SpellsUpdate(raw, u)
  {
    hide Bytes.Utf8Length;
    if raw.JObject? {
      if u.body.None? {
        RemovalExactly(raw.members, u);
      } else {
        UpsertExactly(raw.members, u);
      }
    }
  }

  lemma RemovalExactly(m: Members, u: Update)
    requires u.body.None?
    ensures SyntaxOf(JObject(m)) == Some(u)
            <==> && GoodId(u.id) && u.revision <= UINT64_MAX
                 && m == map["operation" := JString("remove"), "id" := JString(u.id), "revision" := JInt(u.revision)]
  {
    hide Bytes.Utf8Length, ModeOf, SourceOf;
    if SyntaxOf(JObject(m)) == Some(u) {
      assert m.Keys == {"operation", "id", "revision"};
    }
  }

  lemma UpsertExactly(m: Members, u: Update)
    requires u.body.Some?
    ensures SyntaxOf(JObject(m)) == Some(u) <==> SpellsUpdate(JObject(m), u)
  {
    hide Bytes.Utf8Length, ModeOf, SourceOf, SourceText;
    if "mode" in m && m["mode"].JString? {
      ModeTextIs(m["mode"].s, Advisory);
    }
    if "source" in m && m["source"].JString? {
      SourceIsSome(m["source"].s);
    }
  }

  lemma SourceIsSome(s: string)
    ensures Str(JString(s)).Some? && SourceOf(s).Some? <==> exists source :: s == SourceText(source)
  {
    hide SourceText, SourceOf;
    if SourceOf(s).Some? {
      SourceTextIs(s, SourceOf(s).value);
    }
    forall source ensures SourceText(source) != "" && (s == SourceText(source) ==> SourceOf(s).Some?) {
      SourceTextIs(s, source);
      NamesAreSome(Advisory, source);
    }
  }

  ghost predicate SpellsUpdates(doc: Document, us: seq<Update>) {
    && "updates" in doc.members && doc.members["updates"].JArray?
    && var items := doc.members["updates"].items;
       && IsMessage(doc.members, "delta", "updates", items)
       && |items| == |us| && forall i :: 0 <= i < |us| ==> SpellsUpdate(items[i], us[i])
  }

  lemma {:induction false} SyntaxExactly(raws: seq<Json>, us: seq<Update>)
    ensures SyntaxOfAll(raws) == Some(us)
            <==> |raws| == |us| && forall i :: 0 <= i < |us| ==> SpellsUpdate(raws[i], us[i])
  {
    hide SyntaxOf, SpellsUpdate;
    if raws != [] && |raws| == |us| {
      var n := |raws| - 1;
      SyntaxExactly(raws[..n], us[..n]);
      UpdateExactly(raws[n], us[n]);
      assert us == us[..n] + [us[n]];
    }
  }

  lemma UpdatesExactly(doc: Document, us: seq<Update>)
    ensures UpdatesOf(doc) == Some(us) <==> SpellsUpdates(doc, us)
  {
    hide SyntaxOfAll, Header, IsMessage, SpellsUpdate;
    if "updates" in doc.members && doc.members["updates"].JArray? {
      HeaderExactly(doc.members, "delta", "updates", doc.members["updates"].items);
      SyntaxExactly(doc.members["updates"].items, us);
    }
    HeaderItems(doc.members, "delta", "updates");
  }

  // ---- Deltas ----------------------------------------------------------------------------------

  /** The update is newer than what is recorded of its id. */
  predicate Applies(revisions: map<string, nat>, u: Update) { u.id in revisions ==> revisions[u.id] < u.revision }

  /** What an update installs: an upsert that applies the predicate it spells, any other nothing. */
  ghost predicate Validates(s: FilterState, doc: Document, reading: Reading, u: Update, install: Option<Predicate>) {
    if Applies(s.revisions, u) && u.body.Some? then
      && install.Some? && SpellsPredicate(u.body.value, install.value, true)
      && Admits(s.scan, doc.row, doc.context, reading, install.value)
    else install.None?
  }

  /** The updates that apply, in order, with what they install. */
  function Applied(revisions: map<string, nat>, us: seq<Update>, installs: seq<Option<Predicate>>): seq<Patch>
    requires |us| == |installs|
  {
    if us == [] then []
    else
      var n := |us| - 1;
      Applied(revisions, us[..n], installs[..n])
      + if Applies(revisions, us[n]) then [Patch(us[n].id, us[n].revision, installs[n])] else []
  }

  /**
   The delta is for this evaluation context, spells updates of distinct ids none of which is required, those that apply
   validate, and ids and expression nodes stay within the limits.
   */
  ghost predicate Delivers(s: FilterState, doc: Document, reading: Reading, us: seq<Update>,
                           installs: seq<Option<Predicate>>) {
    && doc.context == s.context && SpellsUpdates(doc, us) && |us| == |installs|
    && (forall i, j :: 0 <= i < j < |us| ==> us[i].id != us[j].id)
    && (forall i :: 0 <= i < |us| ==> us[i].id !in s.requiredIds && Validates(s, doc, reading, us[i], installs[i]))
    && PatchNodes(Applied(s.revisions, us, installs)) <= 10_000
    && |s.revisions.Keys + set u <- us :: u.id| <= 4096
  }

  lemma PatchExactly(s: FilterState, doc: Document, reading: Reading, u: Update, install: Option<Predicate>)
    ensures Validates(s, doc, reading, u, install)
            <==> && PatchOf(s.scan, doc, reading, s.revisions, u)
                    == Some(if Applies(s.revisions, u) then [Patch(u.id, u.revision, install)] else [])
                 && (install.Some? ==> Applies(s.revisions, u) && u.body.Some?)
  {
    hide ElaboratePredicate, SpellsPredicate, Admits;
    if u.body.Some? && install.Some? {
      PredicateExactly(s.scan, doc.row, doc.context, reading, u.body.value, true, install.value);
    }
  }

  lemma {:induction false} AppliedIsParsed(s: FilterState, doc: Document, reading: Reading, us: seq<Update>,
                                           installs: seq<Option<Predicate>>)
    requires |us| == |installs|
    requires forall i :: 0 <= i < |us| ==> Validates(s, doc, reading, us[i], installs[i])
    ensures Parsed(s.scan, doc, reading, s.revisions, us) == Some(Applied(s.revisions, us, installs))
  {
    hide PatchOf, Validates, Applies;
    if us != [] {
      var n := |us| - 1;
      assert forall i :: 0 <= i < n ==> us[..n][i] == us[i] && installs[..n][i] == installs[i];
      AppliedIsParsed(s, doc, reading, us[..n], installs[..n]);
      PatchExactly(s, doc, reading, us[n], installs[n]);
    }
  }

  lemma {:induction false} ParsedValidates(s: FilterState, doc: Document, reading: Reading, us: seq<Update>)
    returns (installs: seq<Option<Predicate>>)
    requires Parsed(s.scan, doc, reading, s.revisions, us).Some?
    ensures |us| == |installs| && forall i :: 0 <= i < |us| ==> Validates(s, doc, reading, us[i], installs[i])
  {
    hide PatchOf, Validates, Applies;
    if us == [] {
      installs := [];
    } else {
      var n := |us| - 1;
      var init := ParsedValidates(s, doc, reading, us[..n]);
      var last := PatchInstalls(s, doc, reading, us[n]);
      installs := init + [last];
    }
  }

  lemma PatchInstalls(s: FilterState, doc: Document, reading: Reading, u: Update) returns (install: Option<Predicate>)
    requires PatchOf(s.scan, doc, reading, s.revisions, u).Some?
    ensures Validates(s, doc, reading, u, install)
  {
    hide ElaboratePredicate;
    var ps := PatchOf(s.scan, doc, reading, s.revisions, u).value;
    install := if ps == [] then None else ps[0].install;
    assert ps != [] ==> ps == [ps[0]];
    PatchExactly(s, doc, reading, u, install);
    hide Validates;
  }

  /** What the patches leave of the predicates there were: each keeps its place, unless it is removed. */
  function Survivors(ps: seq<Predicate>, patches: seq<Patch>): seq<Predicate> {
    if ps == [] then []
    else
      var p := ps[|ps| - 1];
      Survivors(ps[..|ps| - 1], patches)
      + match PatchFor(patches, p.id)
        case None => [p]
        case Some(patch) => if patch.install.Some? then [patch.install.value] else []
  }

  /** The predicates they add: those of new ids, in the order of the updates. */
  function Newcomers(ps: seq<Predicate>, patches: seq<Patch>): seq<Predicate> {
    if patches == [] then []
    else
      var patch := patches[|patches| - 1];
      Newcomers(ps, patches[..|patches| - 1])
      + if patch.install.Some? && (forall i | 0 <= i < |ps| :: ps[i].id != patch.id) then [patch.install.value] else []
  }

  /** What a delta leaves: survivors before newcomers, and the revision of each update that applied. */
  ghost predicate Leaves(s: FilterState, applied: seq<Patch>, t: FilterState) {
    && t == s.(predicates := Survivors(s.predicates, applied) + Newcomers(s.predicates, applied),
               revisions := t.revisions)
    && (forall id: string :: id in t.revisions <==> id in s.revisions || exists p <- applied :: p.id == id)
    && (forall p <- applied :: p.id in t.revisions && t.revisions[p.id] == p.revision)
    && (forall id <- s.revisions.Keys :: (forall p <- applied :: p.id != id) ==> t.revisions[id] == s.revisions[id])
  }

  // ---- Where predicates end up -----------------------------------------------------------------

  ghost predicate NamesNone(ps: seq<Predicate>, id: string) { forall i :: 0 <= i < |ps| ==> ps[i].id != id }

  lemma InstallBefore(a: seq<Predicate>, b: seq<Predicate>, patch: Patch)
    requires NamesNone(b, patch.id) && !NamesNone(a, patch.id)
    ensures Install(a + b, patch) == Install(a, patch) + b
  {
    hide Install, IndexOf, NamesNone;
    IndexBefore(a, b, patch.id);
    InstalledAt(a, patch);
    InstalledAt(a + b, patch);
    AroundIndex(a, b, IndexOf(a, patch.id).value);
    var i := IndexOf(a, patch.id).value;
    if patch.install.Some? {
      assert a[..i] + [patch.install.value] + (a[i + 1..] + b) == a[..i] + [patch.install.value] + a[i + 1..] + b;
    } else {
      assert a[..i] + (a[i + 1..] + b) == a[..i] + a[i + 1..] + b;
    }
  }

  lemma AroundIndex(a: seq<Predicate>, b: seq<Predicate>, i: nat)
    requires i < |a|
    ensures (a + b)[..i] == a[..i] && (a + b)[i + 1..] == a[i + 1..] + b
  {
  }

  lemma InstalledAt(ps: seq<Predicate>, patch: Patch)
    requires IndexOf(ps, patch.id).Some?
    ensures var i := IndexOf(ps, patch.id).value;
            Install(ps, patch) == match patch.install
                                  case None => ps[..i] + ps[i + 1..]
                                  case Some(p) => ps[..i] + [p] + ps[i + 1..]
  {
  }

  lemma {:induction false} IndexBefore(a: seq<Predicate>, b: seq<Predicate>, id: string)
    requires NamesNone(b, id) && !NamesNone(a, id)
    ensures IndexOf(a, id).Some? && IndexOf(a + b, id) == IndexOf(a, id)
  {
    if b == [] {
      assert a + b == a;
    } else {
      assert (a + b)[..|a + b| - 1] == a + b[..|b| - 1];
      IndexBefore(a, b[..|b| - 1], id);
    }
  }

  ghost predicate DistinctPatches(patches: seq<Patch>) {
    forall i, j :: 0 <= i < j < |patches| ==> patches[i].id != patches[j].id
  }

  lemma PatchForInit(init: seq<Patch>, last: Patch, id: string)
    ensures PatchFor(init + [last], id) == if last.id == id then Some(last) else PatchFor(init, id)
  {
    assert (init + [last])[..|init|] == init;
  }

  /** One more patch that names none of the predicates leaves the survivors as they are. */
  lemma {:induction false} StrangerSurvives(ps: seq<Predicate>, init: seq<Patch>, last: Patch)
    requires NamesNone(ps, last.id)
    ensures Survivors(ps, init + [last]) == Survivors(ps, init)
  {
    hide PatchFor;
    if ps != [] {
      StrangerSurvives(ps[..|ps| - 1], init, last);
      PatchForInit(init, last, ps[|ps| - 1].id);
    }
  }

  /** Survivors carry the ids of the predicates there were. */
  lemma {:induction false} SurvivorsAreNamed(ps: seq<Predicate>, patches: seq<Patch>, id: string)
    requires NamesNone(ps, id) && WellPatched(patches)
    ensures NamesNone(Survivors(ps, patches), id)
  {
    if ps != [] {
      SurvivorsAreNamed(ps[..|ps| - 1], patches, id);
      PatchForIsPresent(patches, ps[|ps| - 1].id);
    }
  }

  /** One more patch, of an id among the predicates that no patch named before, is installed among the survivors. */
  lemma {:induction false} InstallsAmongSurvivors(ps: seq<Predicate>, init: seq<Patch>, last: Patch)
    requires DistinctPredicates(ps) && WellPatched(init) && PatchFor(init, last.id).None? && !NamesNone(ps, last.id)
    ensures !NamesNone(Survivors(ps, init), last.id)
    ensures Survivors(ps, init + [last]) == Install(Survivors(ps, init), last)
  {
    var n := |ps| - 1;
    var q := ps[n];
    PatchForInit(init, last, q.id);
    var before := Survivors(ps[..n], init);
    if q.id == last.id {
      StrangerSurvives(ps[..n], init, last);
      hide PatchFor;
      assert Survivors(ps, init) == before + [q];
      InstallsLast(before, q, last);
    } else {
      InstallsAmongSurvivors(ps[..n], init, last);
      var one := match PatchFor(init, q.id)
                 case None => [q]
                 case Some(patch) => if patch.install.Some? then [patch.install.value] else [];
      PatchForIsPresent(init, q.id);
      hide PatchFor;
      assert NamesNone(one, last.id);
      assert Survivors(ps, init) == before + one;
      InstallBefore(before, one, last);
      var k :| 0 <= k < |before| && before[k].id == last.id;
      assert (before + one)[k].id == last.id;
    }
  }

  lemma InstallsLast(before: seq<Predicate>, q: Predicate, patch: Patch)
    requires q.id == patch.id
    ensures Install(before + [q], patch) == before + if patch.install.Some? then [patch.install.value] else []
    ensures !NamesNone(before + [q], patch.id)
  {
    assert IndexOf(before + [q], patch.id) == Some(|before|);
    assert (before + [q])[|before|] == q;
  }

  lemma {:induction false} NewcomersAreNamed(ps: seq<Predicate>, patches: seq<Patch>, id: string)
    requires WellPatched(patches)
    requires PatchFor(patches, id).None? || !NamesNone(ps, id)
    ensures NamesNone(Newcomers(ps, patches), id)
  {
    if patches != [] {
      NewcomersAreNamed(ps, patches[..|patches| - 1], id);
    }
  }

  lemma InstallsNew(ps: seq<Predicate>, patch: Patch)
    requires NamesNone(ps, patch.id)
    ensures Install(ps, patch) == ps + if patch.install.Some? then [patch.install.value] else []
  {
  }

  /** Committing patches of distinct ids one by one leaves every survivor in its place and the newcomers behind them. */
  lemma {:induction false} CommittedInOrder(s: FilterState, patches: seq<Patch>)
    requires DistinctPredicates(s.predicates) && WellPatched(patches) && DistinctPatches(patches)
    ensures Commit(s, patches).predicates == Survivors(s.predicates, patches) + Newcomers(s.predicates, patches)
  {
    hide Install, PatchFor, NamesNone;
    var ps := s.predicates;
    if patches == [] {
      NothingPatched(ps);
    } else {
      var init, last := patches[..|patches| - 1], patches[|patches| - 1];
      assert patches == init + [last];
      CommittedInOrder(s, init);
      NotPatchedBefore(init, last);
      NewcomersOfOneMore(ps, init, last);
      var old_, added := Survivors(ps, init), Newcomers(ps, init);
      NewcomersAreNamed(ps, init, last.id);
      if NamesNone(ps, last.id) {
        StrangerSurvives(ps, init, last);
        SurvivorsAreNamed(ps, init, last.id);
        NamesNeither(old_, added, last.id);
        InstallsNew(old_ + added, last);
      } else {
        InstallsAmongSurvivors(ps, init, last);
        InstallBefore(old_, added, last);
      }
    }
  }

  lemma NamesNeither(a: seq<Predicate>, b: seq<Predicate>, id: string)
    requires NamesNone(a, id) && NamesNone(b, id)
    ensures NamesNone(a + b, id)
  {
  }

  lemma NewcomersOfOneMore(ps: seq<Predicate>, init: seq<Patch>, last: Patch)
    ensures Newcomers(ps, init + [last])
            == Newcomers(ps, init) + if last.install.Some? && NamesNone(ps, last.id) then [last.install.value] else []
  {
    assert (init + [last])[..|init|] == init;
  }

  lemma {:induction false} NothingPatched(ps: seq<Predicate>)
    ensures Survivors(ps, []) == ps && Newcomers(ps, []) == []
  {
    if ps != [] {
      NothingPatched(ps[..|ps| - 1]);
    }
  }

  lemma NotPatchedBefore(init: seq<Patch>, last: Patch)
    requires DistinctPatches(init + [last])
    ensures PatchFor(init, last.id).None? && DistinctPatches(init)
  {
    PatchForIsPresent(init, last.id);
    var all := init + [last];
    assert forall i :: 0 <= i < |init| ==> all[i] == init[i];
    assert all[|init|] == last;
  }

  lemma {:induction false} CommittedRevisions(s: FilterState, patches: seq<Patch>)
    requires DistinctPatches(patches)
    ensures var t := Commit(s, patches);
            && t == s.(predicates := t.predicates, revisions := t.revisions)
            && (forall id: string :: id in t.revisions <==> id in s.revisions || exists p <- patches :: p.id == id)
            && (forall p <- patches :: p.id in t.revisions && t.revisions[p.id] == p.revision)
            && (forall id <- s.revisions.Keys :: (forall p <- patches :: p.id != id) ==>
                  t.revisions[id] == s.revisions[id])
  {
    hide Install;
    if patches != [] {
      var init, last := patches[..|patches| - 1], patches[|patches| - 1];
      assert patches == init + [last];
      CommittedRevisions(s, init);
      forall p | p in init ensures p.id != last.id {
        var i :| 0 <= i < |init| && init[i] == p;
        assert patches[i].id != patches[|init|].id;
      }
    }
  }

  lemma {:induction false} AppliedIds(revisions: map<string, nat>, us: seq<Update>, installs: seq<Option<Predicate>>)
    requires |us| == |installs| && forall i, j :: 0 <= i < j < |us| ==> us[i].id != us[j].id
    ensures DistinctPatches(Applied(revisions, us, installs))
    ensures forall p <- Applied(revisions, us, installs) :: exists i :: 0 <= i < |us| && us[i].id == p.id
  {
    if us != [] {
      var n := |us| - 1;
      AppliedIds(revisions, us[..n], installs[..n]);
      assert forall i :: 0 <= i < n ==> us[..n][i] == us[i];
    }
  }

  lemma SpelledAgree(doc: Document, us: seq<Update>)
    requires SpellsUpdates(doc, us)
    ensures UpdatesOf(doc) == Some(us) && forall i :: 0 <= i < |us| ==> Agrees(us[i])
  {
    hide SpellsUpdate, Agrees, IsMessage;
    UpdatesExactly(doc, us);
    forall i | 0 <= i < |us| ensures Agrees(us[i]) {
      SpelledAgrees(doc.members["updates"].items[i], us[i]);
    }
  }

  lemma SpelledAgrees(raw: Json, u: Update)
    requires SpellsUpdate(raw, u)
    ensures Agrees(u)
  {
    hide SourceText;
  }

  lemma DeliveredIsRead(s: FilterState, doc: Document, reading: Reading, us: seq<Update>,
                        installs: seq<Option<Predicate>>)
    requires Delivers(s, doc, reading, us, installs)
    ensures ApplyDelta(s, doc, reading) == Some(Commit(s, Applied(s.revisions, us, installs)))
    ensures WellPatched(Applied(s.revisions, us, installs))
  {
    hide SpellsUpdates, Validates, Parsed, PatchNodes, Commit, Applied, Agrees, PatchIds, UpdatesOf, WellPatched;
    SpelledAgree(doc, us);
    AppliedIsParsed(s, doc, reading, us, installs);
    ParsedIds(s.scan, doc, reading, s.revisions, us);
    ParsedAgrees(s.scan, doc, reading, s.revisions, us);
  }

  /**
   A delta that spells such updates is accepted, and leaves exactly this: predicates that stay or are replaced in their
   old places, new ones behind them in the order of the updates, and the revision of every update that applied.
   */
  lemma DeliveredIsApplied(s: FilterState, doc: Document, reading: Reading, us: seq<Update>,
                           installs: seq<Option<Predicate>>)
    requires DistinctPredicates(s.predicates) && Delivers(s, doc, reading, us, installs)
    ensures ApplyDelta(s, doc, reading).Some?
    ensures Leaves(s, Applied(s.revisions, us, installs), ApplyDelta(s, doc, reading).value)
  {
    hide SpellsUpdates, Validates, Commit, Applied, Survivors, Newcomers, ApplyDelta, WellPatched, DistinctPatches;
    hide PatchNodes, DistinctPredicates;
    var patches := Applied(s.revisions, us, installs);
    DeliveredIsRead(s, doc, reading, us, installs);
    AppliedIds(s.revisions, us, installs);
    CommittedInOrder(s, patches);
    CommittedRevisions(s, patches);
  }

  /** And every accepted delta spells such updates. */
  lemma AcceptedIsDelivered(s: FilterState, doc: Document, reading: Reading)
    returns (us: seq<Update>, installs: seq<Option<Predicate>>)
    requires ApplyDelta(s, doc, reading).Some?
    ensures Delivers(s, doc, reading, us, installs)
  {
    hide SpellsUpdates, Validates, Parsed, PatchNodes, Commit, Applied, UpdatesOf, PatchIds;
    us := UpdatesOf(doc).value;
    UpdatesExactly(doc, us);
    installs := ParsedValidates(s, doc, reading, us);
    AppliedIsParsed(s, doc, reading, us, installs);
    ParsedIds(s.scan, doc, reading, s.revisions, us);
  }
}
