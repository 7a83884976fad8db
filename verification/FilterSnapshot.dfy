/** The initial snapshot of a scan. */
module FilterSnapshot {
  import opened Common
  import opened FilterModel
  import opened FilterParser
  import opened FilterDelta

  function EntryOf(scan: Scan, doc: Document, reading: Reading, raw: Json): Option<Predicate> {
    if !raw.JObject? then None
    else
      var p :- ElaboratePredicate(scan, doc.row, doc.context, reading, raw.members, false);
      if p.revision != 0 then None else Some(p)
  }

  function EntriesOf(scan: Scan, doc: Document, reading: Reading, raws: seq<Json>): (r: Option<seq<Predicate>>)
    ensures r.Some? ==> |r.value| == |raws|
  {
    if raws == [] then Some([])
    else
      var init :- EntriesOf(scan, doc, reading, raws[..|raws| - 1]);
      var last :- EntryOf(scan, doc, reading, raws[|raws| - 1]);
      Some(init + [last])
  }

  function TotalNodes(ps: seq<Predicate>): nat {
    if ps == [] then 0 else TotalNodes(ps[..|ps| - 1]) + Size(ps[|ps| - 1].expression)
  }

  predicate DistinctPredicates(ps: seq<Predicate>) { forall i, j :: 0 <= i < j < |ps| ==> ps[i].id != ps[j].id }

  function RequiredIds(ps: seq<Predicate>): set<string> { set p | p in ps && p.mode.Required? :: p.id }

  function InitialState(scan: Scan, context: Context, ps: seq<Predicate>): FilterState {
    FilterState(scan, context, ps, map p | p in ps :: p.id := 0, RequiredIds(ps))
  }

  /** The state a snapshot installs, or None when it is rejected. */
  function ApplySnapshot(scan: Scan, doc: Document, reading: Reading): Option<FilterState> {
    var raws :- Header(doc.members, "snapshot", "predicates");
    var ps :- EntriesOf(scan, doc, reading, raws);
    if |raws| > MAX_PREDICATES || TotalNodes(ps) > MAX_NODES || !DistinctPredicates(ps) then None
    else Some(InitialState(scan, doc.context, ps))
  }

  ghost predicate ReadableEntries(scan: Scan, doc: Document, reading: Reading, raws: seq<Json>) {
    && EntriesOf(scan, doc, reading, raws).Some?
    && TotalNodes(EntriesOf(scan, doc, reading, raws).value) <= MAX_NODES
    && DistinctPredicates(EntriesOf(scan, doc, reading, raws).value)
  }

  lemma {:induction false} ReadableEntriesPrefix(scan: Scan, doc: Document, reading: Reading, raws: seq<Json>, i: nat)
    requires ReadableEntries(scan, doc, reading, raws) && i <= |raws|
    ensures ReadableEntries(scan, doc, reading, raws[..i])
  {
    hide EntryOf;
    if i == |raws| {
      assert raws[..i] == raws;
    } else {
      var k := |raws| - 1;
      var ps := EntriesOf(scan, doc, reading, raws).value;
      assert ps[..k] == EntriesOf(scan, doc, reading, raws[..k]).value;
      ReadableEntriesPrefix(scan, doc, reading, raws[..k], i);
      assert raws[..k][..i] == raws[..i];
    }
  }

  lemma ReadOneMoreEntry(scan: Scan, doc: Document, reading: Reading, raws: seq<Json>, raw: Json)
    requires ReadableEntries(scan, doc, reading, raws)
    ensures
      var ps := EntriesOf(scan, doc, reading, raws).value;
      var p := EntryOf(scan, doc, reading, raw);
      && EntriesOf(scan, doc, reading, raws + [raw]) == (if p.Some? then Some(ps + [p.value]) else None)
      && (p.Some? ==> TotalNodes(ps + [p.value]) == TotalNodes(ps) + Size(p.value.expression))
      && (ReadableEntries(scan, doc, reading, raws + [raw]) <==>
            && p.Some? && TotalNodes(ps) + Size(p.value.expression) <= MAX_NODES
            && p.value.id !in (set q <- ps :: q.id))
  {
    hide EntryOf;
    assert (raws + [raw])[..|raws|] == raws;
    var ps := EntriesOf(scan, doc, reading, raws).value;
    var p := EntryOf(scan, doc, reading, raw);
    if p.Some? {
      var ps' := ps + [p.value];
      assert ps'[..|ps|] == ps && ps'[|ps|] == p.value;
      assert DistinctPredicates(ps') ==> forall j :: 0 <= j < |ps| ==> ps'[j].id != ps'[|ps|].id;
    }
  }

  /** `parse_snapshot`. */
  method ParseSnapshot(scan: Scan, doc: Document, reading: Reading) returns (r: Option<FilterState>)
    ensures r == ApplySnapshot(scan, doc, reading)
  {
    hide ElaboratePredicate, EntriesOf, Sound, TotalNodes, ReadableEntries, Header, HasKeys;
    var raws := Header(doc.members, "snapshot", "predicates");
    if raws.None? || |raws.value| > MAX_PREDICATES {
      return None;
    }
    var parser := new Parser(scan, doc.row, doc.context, reading);
    var parsed: seq<Predicate> := [];
    var ids: set<string> := {};
    ReadNoEntries(scan, doc, reading);
    for i := 0 to |raws.value|
      invariant fresh(parser) && parser.scan == scan && parser.row == doc.row
      invariant parser.context == doc.context && parser.reading == reading
      invariant ReadableEntries(scan, doc, reading, raws.value[..i])
      invariant EntriesOf(scan, doc, reading, raws.value[..i]) == Some(parsed)
      invariant parser.nodes == TotalNodes(parsed) <= MAX_NODES
      invariant ids == set q <- parsed :: q.id
    {
      var raw := raws.value[i];
      ReadOneMoreEntry(scan, doc, reading, raws.value[..i], raw);
      assert raws.value[..i + 1] == raws.value[..i] + [raw];
      RejectedByPrefix(scan, doc, reading, raws.value, i + 1);
      if !raw.JObject? {
        return None;
      }
      var p := parser.PredicateEntry(raw.members, false);
      if p.None? || p.value.revision != 0 || p.value.id in ids {
        return None;
      }
      ids := ids + {p.value.id};
      parsed := parsed + [p.value];
    }
    assert raws.value[..|raws.value|] == raws.value;
    RejectedByPrefix(scan, doc, reading, raws.value, |raws.value|);
    return Some(InitialState(scan, doc.context, parsed));
  }

  lemma ReadNoEntries(scan: Scan, doc: Document, reading: Reading)
    ensures ReadableEntries(scan, doc, reading, []) && EntriesOf(scan, doc, reading, []) == Some([])
    ensures TotalNodes([]) == 0
  {
  }

  /** The verdict on a snapshot of the permitted length, in terms of what reading it finds. */
  lemma RejectedByPrefix(scan: Scan, doc: Document, reading: Reading, raws: seq<Json>, i: nat)
    requires Header(doc.members, "snapshot", "predicates") == Some(raws) && |raws| <= MAX_PREDICATES && i <= |raws|
    ensures !ReadableEntries(scan, doc, reading, raws[..i]) ==> ApplySnapshot(scan, doc, reading) == None
    ensures ReadableEntries(scan, doc, reading, raws) ==>
              ApplySnapshot(scan, doc, reading)
              == Some(InitialState(scan, doc.context, EntriesOf(scan, doc, reading, raws).value))
  {
    hide EntryOf, EntriesOf, Header, TotalNodes, DistinctPredicates;
    if ReadableEntries(scan, doc, reading, raws) {
      ReadableEntriesPrefix(scan, doc, reading, raws, i);
    }
  }
}
