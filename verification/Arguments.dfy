/** Function arguments as one flat typed row: the batch codec and its two round trips. */
module Arguments {
  import opened Common
  import opened Arrow
  import opened Decimal

  /** An argument value together with its Arrow type. */
  datatype Typed = Typed(dtype: DataType, value: Scalar)

  /** One column of a batch: its name and the value in its only row. */
  datatype Cell<+V> = Cell(name: string, value: V)

  /** `named` is a dictionary in insertion order, so its names are distinct. */
  datatype Arguments = Arguments(
    positional: seq<Option<Typed>>,
    named: Option<seq<Cell<Typed>>>,
    argumentSchema: Option<Schema>)

  predicate Distinct<V>(cells: seq<Cell<V>>) {
    forall i, j :: 0 <= i < j < |cells| ==> cells[i].name != cells[j].name
  }

  predicate WellFormed(a: Arguments) { a.named.Some? ==> Distinct(a.named.value) }

  const POSITIONAL: string := "positional_"
  const NAMED: string := "named_"

  // ---- Typed values ----------------------------------------------------------------------------

  /** `_validate_scalar`: declared nullability, also of the items of a present list. */
  predicate Admits(nullable: bool, dtype: DataType, value: Scalar)
    decreases value
  {
    match value
    case NullScalar => nullable
    case Atom(_) => true
    case ListOf(items) =>
      match dtype
      case List(item) => forall i :: 0 <= i < |items| ==> Admits(item.nullable, item.dtype, items[i])
      case LargeList(item) => forall i :: 0 <= i < |items| ==> Admits(item.nullable, item.dtype, items[i])
      case Struct(fields) =>
        forall i :: 0 <= i < |items| && i < |fields| ==> Admits(fields[i].nullable, fields[i].dtype, items[i])
      case _ => true
  }

  /** `TypedValueBatch`: unique, nonempty names without NUL, and values their fields admit. */
  predicate IsTypedBatch(b: OneRow) {
    var fields := b.schema.fields;
    && (forall i, j :: 0 <= i < j < |fields| ==> fields[i].name != fields[j].name)
    && (forall i :: 0 <= i < |fields| ==> fields[i].name != "" && '\0' !in fields[i].name)
    && (forall i :: 0 <= i < |fields| ==> Admits(fields[i].nullable, fields[i].dtype, b.row[i]))
  }

  function Cells(b: OneRow): (r: seq<Cell<Typed>>)
    ensures |r| == |b.row|
  {
    seq(|b.row|,
        i requires 0 <= i < |b.row| => Cell(b.schema.fields[i].name, Typed(b.schema.fields[i].dtype, b.row[i])))
  }

  // ---- Encoding --------------------------------------------------------------------------------

  function PositionalCells(positional: seq<Option<Typed>>): (r: seq<Cell<Option<Typed>>>)
    ensures |r| == |positional|
  {
    seq(|positional|, i requires 0 <= i < |positional| => Cell(POSITIONAL + Render(i), positional[i]))
  }

  function NamedCells(named: seq<Cell<Typed>>): (r: seq<Cell<Option<Typed>>>)
    ensures |r| == |named|
  {
    seq(|named|, i requires 0 <= i < |named| => Cell(NAMED + named[i].name, Some(named[i].value)))
  }

  /** `encoded_dict`, in insertion order. */
  function EncodedDict(a: Arguments): seq<Cell<Option<Typed>>> {
    PositionalCells(a.positional) + NamedCells(a.named.GetOr([]))
  }

  /** The value stored under a key, and what a missing positional argument is written as. */
  function Lookup(cells: seq<Cell<Option<Typed>>>, key: string): Option<Option<Typed>> {
    if cells == [] then None
    else if cells[|cells| - 1].name == key then Some(cells[|cells| - 1].value)
    else Lookup(cells[..|cells| - 1], key)
  }

  function Written(value: Option<Typed>): Typed { value.GetOr(Typed(Null, NullScalar)) }

  function FieldNames(fields: seq<Field>): (r: set<string>)
    ensures forall name :: name in r <==> exists i :: 0 <= i < |fields| && fields[i].name == name
  {
    set f <- fields :: f.name
  }

  function CellNames(cells: seq<Cell<Option<Typed>>>): (r: set<string>)
    ensures forall name :: name in r <==> exists i :: 0 <= i < |cells| && cells[i].name == name
  {
    set c <- cells :: c.name
  }

  /** `schema()`; None when a given argument schema does not fit the values. */
  function SchemaOf(a: Arguments): Option<Schema> {
    var dict := EncodedDict(a);
    match a.argumentSchema
    case Some(schema) =>
      if && |schema.fields| == |dict|
         && FieldNames(schema.fields) == CellNames(dict)
         && forall f <- schema.fields ::
              var v := Lookup(dict, f.name); v.Some? && f.dtype == Written(v.value).dtype
      then Some(schema) else None
    case None =>
      Some(Schema(seq(|dict|, i requires 0 <= i < |dict| =>
                        Field(dict[i].name, Written(dict[i].value).dtype, true, map[])), map[]))
  }

  /** `to_batch`; None for every error it raises. */
  function ToBatch(a: Arguments): Option<OneRow> {
    var schema :- SchemaOf(a);
    var dict := EncodedDict(a);
    var row := seq(|schema.fields|, i requires 0 <= i < |schema.fields| =>
                     Written(Lookup(dict, schema.fields[i].name).GetOr(None)).value);
    var b: OneRow := RowBatch(schema, row);
    if IsTypedBatch(b) then Some(b) else None
  }

  // ---- Decoding --------------------------------------------------------------------------------

  function Rest(prefix: string, name: string): string
    requires prefix <= name
  {
    name[|prefix|..]
  }

  predicate IsPositional(name: string) { POSITIONAL <= name && Canonical(Rest(POSITIONAL, name)) }

  predicate IsNamed(name: string) { NAMED <= name && Rest(NAMED, name) != "" }

  function IndexOf(name: string): nat
    requires IsPositional(name)
  {
    Value(Rest(POSITIONAL, name))
  }

  predicate NamesAreKnown(cells: seq<Cell<Typed>>) {
    forall c <- cells :: IsPositional(c.name) || IsNamed(c.name)
  }

  function PositionalPart(cells: seq<Cell<Typed>>): map<nat, Typed>
    requires NamesAreKnown(cells)
  {
    if cells == [] then map[]
    else
      var c, init := cells[|cells| - 1], PositionalPart(cells[..|cells| - 1]);
      if IsPositional(c.name) then init[IndexOf(c.name) := c.value] else init
  }

  function NamedPart(cells: seq<Cell<Typed>>): seq<Cell<Typed>>
    requires NamesAreKnown(cells)
  {
    if cells == [] then []
    else
      var c, init := cells[|cells| - 1], NamedPart(cells[..|cells| - 1]);
      if IsPositional(c.name) then init else init + [Cell(Rest(NAMED, c.name), c.value)]
  }

  predicate Contiguous(values: map<nat, Typed>) {
    && (forall i: nat | i < |values| :: i in values)
    && (forall i <- values.Keys :: i < |values|)
  }

  /** What a batch means as arguments: known names, and positions 0..k-1 without a gap. */
  function FromBatch(b: OneRow): Option<Arguments> {
    var cells := Cells(b);
    if !IsTypedBatch(b) || !NamesAreKnown(cells) || !Contiguous(PositionalPart(cells)) then None
    else
      var values, named := PositionalPart(cells), NamedPart(cells);
      Some(Arguments(seq(|values|, i requires 0 <= i < |values| => Some(values[i])),
                     if named == [] then None else Some(named), Some(b.schema)))
  }

  /** The test made before a suffix is converted: too many digits, or at least the column count. */
  predicate GuardRejects(suffix: string, columns: nat)
    requires Canonical(suffix)
  {
    |suffix| > |Render(columns)| || Value(suffix) >= columns
  }

  /** The guard rejects exactly the canonical indexes that are not below the column count. */
  lemma GuardIsExact(suffix: string, columns: nat)
    requires Canonical(suffix)
    ensures GuardRejects(suffix, columns) <==> Value(suffix) >= columns
  {
    RenderRoundTrip(columns);
    if |suffix| > |Render(columns)| {
      LongerIsLarger(suffix, Render(columns));
    }
  }

  /** Parts of a batch hold as many values as they have columns. */
  lemma {:induction false} PartsPartition(cells: seq<Cell<Typed>>)
    requires NamesAreKnown(cells) && Distinct(cells)
    ensures |PositionalPart(cells)| + |NamedPart(cells)| == |cells|
  {
    if cells != [] {
      var c, init := cells[|cells| - 1], cells[..|cells| - 1];
      PartsPartition(init);
      if IsPositional(c.name) && IndexOf(c.name) in PositionalPart(init) {
        var v := PositionalPart(init)[IndexOf(c.name)];
        PositionalMeaning(init, IndexOf(c.name), v);
        NameOfIndex(c.name);
      }
    }
  }

  lemma NameOfIndex(name: string)
    requires IsPositional(name)
    ensures name == POSITIONAL + Render(IndexOf(name))
  {
    ValueRoundTrip(Rest(POSITIONAL, name));
  }

  lemma IndexOfName(j: nat)
    ensures IsPositional(POSITIONAL + Render(j)) && IndexOf(POSITIONAL + Render(j)) == j
  {
    RenderRoundTrip(j);
    assert Rest(POSITIONAL, POSITIONAL + Render(j)) == Render(j);
  }

  /** Position `j` holds a value exactly when the column named after it does. */
  lemma {:induction false} PositionalMeaning(cells: seq<Cell<Typed>>, j: nat, v: Typed)
    requires NamesAreKnown(cells) && Distinct(cells)
    ensures (j in PositionalPart(cells) && PositionalPart(cells)[j] == v) <==> Cell(POSITIONAL + Render(j), v) in cells
  {
    hide Canonical, Render, Value;
    if cells != [] {
      var c, init := cells[|cells| - 1], cells[..|cells| - 1];
      PositionalMeaning(init, j, v);
      IndexOfName(j);
      assert cells == init + [c];
      if IsPositional(c.name) {
        NameOfIndex(c.name);
      }
    }
  }

  lemma PrefixesDiffer(name: string)
    ensures !(POSITIONAL <= NAMED + name)
  {
    assert (NAMED + name)[0] == 'n' && POSITIONAL[0] == 'p';
  }

  /** A name holds a value exactly when the column named after it does. */
  lemma {:induction false} NamedMeaning(cells: seq<Cell<Typed>>, name: string, v: Typed)
    requires NamesAreKnown(cells) && Distinct(cells)
    ensures Cell(name, v) in NamedPart(cells) <==> name != "" && Cell(NAMED + name, v) in cells
  {
    hide Canonical, IndexOf;
    if cells != [] {
      var c, init := cells[|cells| - 1], cells[..|cells| - 1];
      NamedMeaning(init, name, v);
      PrefixesDiffer(name);
      assert cells == init + [c];
      assert Rest(NAMED, NAMED + name) == name;
      if NAMED <= c.name {
        assert c.name == NAMED + Rest(NAMED, c.name);
      }
    }
  }

  lemma {:induction false} NamedPartIsDistinct(cells: seq<Cell<Typed>>)
    requires NamesAreKnown(cells) && Distinct(cells)
    ensures Distinct(NamedPart(cells))
  {
    hide Canonical, IndexOf;
    if cells != [] {
      var c, init := cells[|cells| - 1], cells[..|cells| - 1];
      NamedPartIsDistinct(init);
      if !IsPositional(c.name) {
        var before := NamedPart(init);
        forall i | 0 <= i < |before| ensures before[i].name != Rest(NAMED, c.name) {
          NamedMeaning(init, before[i].name, before[i].value);
          assert before[i] in before;
          assert c.name == NAMED + Rest(NAMED, c.name);
        }
      }
    }
  }

  /** Some index at or above the column count means a gap among the indexes. */
  lemma LargeIndexLeavesAGap(b: OneRow, i: nat)
    requires IsTypedBatch(b) && NamesAreKnown(Cells(b)) && i < |b.row|
    requires IsPositional(Cells(b)[i].name) && IndexOf(Cells(b)[i].name) >= |b.row|
    ensures !Contiguous(PositionalPart(Cells(b)))
  {
    hide Canonical, IndexOf, Value, Render;
    var cells := Cells(b);
    PartsPartition(cells);
    PositionalMeaning(cells, IndexOf(cells[i].name), cells[i].value);
    NameOfIndex(cells[i].name);
  }

  lemma PrefixStep<T>(s: seq<T>, i: nat)
    requires i < |s|
    ensures s[..i + 1] == s[..i] + [s[i]] && s[..i + 1][..i] == s[..i]
  {
  }

  lemma NoParts()
    ensures PositionalPart([]) == map[] && NamedPart([]) == []
  {
  }

  lemma PartsStep(cells: seq<Cell<Typed>>, c: Cell<Typed>)
    requires NamesAreKnown(cells) && (IsPositional(c.name) || IsNamed(c.name))
    ensures NamesAreKnown(cells + [c])
    ensures PositionalPart(cells + [c])
            == if IsPositional(c.name) then PositionalPart(cells)[IndexOf(c.name) := c.value] else PositionalPart(cells)
    ensures NamedPart(cells + [c])
            == NamedPart(cells) + if IsPositional(c.name) then [] else [Cell(Rest(NAMED, c.name), c.value)]
  {
    hide Canonical, IndexOf;
    assert (cells + [c])[..|cells|] == cells;
  }

  /** `from_batch` as it runs: the early guard changes no answer. */
  method ReadBatch(b: OneRow) returns (r: Option<Arguments>)
    ensures r == FromBatch(b)
  {
    hide AllDigits, Value, Render, Admits, PositionalPart, NamedPart, IsTypedBatch;
    if !IsTypedBatch(b) {
      return None;
    }
    var cells := Cells(b);
    NoParts();
    var values: map<nat, Typed> := map[];
    var named: seq<Cell<Typed>> := [];
    var i := 0;
    while i < |cells|
      invariant 0 <= i <= |cells|
      invariant NamesAreKnown(cells[..i])
      invariant values == PositionalPart(cells[..i]) && named == NamedPart(cells[..i])
    {
      var key := cells[i].name;
      PrefixStep(cells, i);
      if IsPositional(key) || IsNamed(key) {
        PartsStep(cells[..i], cells[i]);
      }
      if POSITIONAL <= key {
        var suffix := Rest(POSITIONAL, key);
        if !Canonical(suffix) {
          assert key[0] == 'p' && cells[i] in cells;
          return None;
        }
        GuardIsExact(suffix, |cells|);
        if GuardRejects(suffix, |cells|) {
          if NamesAreKnown(cells) {
            LargeIndexLeavesAGap(b, i);
          }
          return None;
        }
        values := values[Value(suffix) := cells[i].value];
      } else if NAMED <= key && Rest(NAMED, key) != "" {
        named := named + [Cell(Rest(NAMED, key), cells[i].value)];
      } else {
        assert cells[i] in cells;
        return None;
      }
      i := i + 1;
    }
    assert cells[..|cells|] == cells;
    if !Contiguous(values) {
      return None;
    }
    return Some(Arguments(seq(|values|, j requires 0 <= j < |values| => Some(values[j])),
                          if named == [] then None else Some(named), Some(b.schema)));
  }

  // ---- The encoded dictionary ------------------------------------------------------------------

  lemma EncodedDictIsDistinct(a: Arguments)
    requires WellFormed(a)
    ensures Distinct(EncodedDict(a))
  {
    hide Render;
    var dict, k := EncodedDict(a), |a.positional|;
    var named := a.named.GetOr([]);
    forall i, j | 0 <= i < j < |dict| ensures dict[i].name != dict[j].name {
      if j < k {
        if Render(i) == Render(j) {
          RenderInjective(i, j);
        }
        assert Rest(POSITIONAL, dict[i].name) == Render(i) && Rest(POSITIONAL, dict[j].name) == Render(j);
      } else {
        PrefixesDiffer(named[j - k].name);
        if k <= i {
          assert Rest(NAMED, dict[i].name) == named[i - k].name && Rest(NAMED, dict[j].name) == named[j - k].name;
        }
      }
    }
  }

  lemma {:induction false} LookupFinds(cells: seq<Cell<Option<Typed>>>, key: string, v: Option<Typed>)
    requires Distinct(cells)
    ensures Lookup(cells, key) == Some(v) <==> Cell(key, v) in cells
    ensures Lookup(cells, key).Some? <==> exists c <- cells :: c.name == key
  {
    if cells != [] {
      var c, init := cells[|cells| - 1], cells[..|cells| - 1];
      LookupFinds(init, key, v);
      assert cells == init + [c];
    }
  }

  /** The cells of an encoded batch are the dictionary's entries, in the order of the schema. */
  lemma EncodedCells(a: Arguments, name: string, v: Typed)
    requires WellFormed(a) && ToBatch(a).Some?
    ensures Cell(name, v) in Cells(ToBatch(a).value)
            <==> exists c <- EncodedDict(a) :: c.name == name && Written(c.value) == v
  {
    hide EncodedDict, IsTypedBatch;
    var dict, b := EncodedDict(a), ToBatch(a).value;
    var fields, cells := b.schema.fields, Cells(b);
    EncodedDictIsDistinct(a);
    forall i | 0 <= i < |fields|
      ensures Lookup(dict, fields[i].name).Some?
      ensures cells[i] == Cell(fields[i].name, Written(Lookup(dict, fields[i].name).value))
    {
      CellIsLookup(a, i);
    }
    if Cell(name, v) in cells {
      var i :| 0 <= i < |cells| && cells[i] == Cell(name, v);
      LookupFinds(dict, name, Lookup(dict, name).value);
    }
    if c :| c in dict && c.name == name && Written(c.value) == v {
      LookupFinds(dict, name, c.value);
      FieldForEntry(a, c);
      var i :| 0 <= i < |fields| && fields[i].name == name;
      assert cells[i] == Cell(name, v);
    }
  }

  lemma CellIsLookup(a: Arguments, i: nat)
    requires WellFormed(a) && ToBatch(a).Some? && i < |ToBatch(a).value.schema.fields|
    ensures var f := ToBatch(a).value.schema.fields[i];
            var v := Lookup(EncodedDict(a), f.name);
            v.Some? && Cells(ToBatch(a).value)[i] == Cell(f.name, Written(v.value))
  {
    hide EncodedDict, IsTypedBatch;
    var dict, f := EncodedDict(a), ToBatch(a).value.schema.fields[i];
    EncodedDictIsDistinct(a);
    if a.argumentSchema.None? {
      LookupFinds(dict, f.name, dict[i].value);
      assert dict[i] in dict;
    } else {
      assert f in a.argumentSchema.value.fields;
    }
  }

  lemma FieldForEntry(a: Arguments, c: Cell<Option<Typed>>)
    requires ToBatch(a).Some? && c in EncodedDict(a)
    ensures exists i :: 0 <= i < |ToBatch(a).value.schema.fields| && ToBatch(a).value.schema.fields[i].name == c.name
  {
    hide EncodedDict, IsTypedBatch;
    var dict, fields := EncodedDict(a), ToBatch(a).value.schema.fields;
    if a.argumentSchema.None? {
      var i :| 0 <= i < |dict| && dict[i] == c;
      assert fields[i].name == c.name;
    } else {
      assert c.name in set d <- dict :: d.name;
      assert c.name in CellNames(dict);
      assert c.name in FieldNames(fields);
    }
  }

  // ---- Round trips -----------------------------------------------------------------------------

  predicate NamesNonEmpty(a: Arguments) { forall c <- a.named.GetOr([]) :: c.name != "" }

  lemma NamesAreKnownExactly(a: Arguments)
    requires WellFormed(a) && ToBatch(a).Some?
    ensures NamesAreKnown(Cells(ToBatch(a).value)) <==> NamesNonEmpty(a)
  {
    hide IsTypedBatch, Canonical, Render, ToBatch;
    var cells, named, k := Cells(ToBatch(a).value), a.named.GetOr([]), |a.positional|;
    var dict := EncodedDict(a);
    forall i | 0 <= i < |dict|
      ensures Cell(dict[i].name, Written(dict[i].value)) in cells
      ensures i < k ==> IsPositional(dict[i].name)
      ensures i >= k ==> !IsPositional(dict[i].name) && (IsNamed(dict[i].name) <==> named[i - k].name != "")
    {
      assert dict[i] in dict;
      EncodedCells(a, dict[i].name, Written(dict[i].value));
      if i < k {
        IndexOfName(i);
      } else {
        PrefixesDiffer(named[i - k].name);
        assert Rest(NAMED, dict[i].name) == named[i - k].name;
      }
    }
    if NamesNonEmpty(a) {
      forall c <- cells ensures IsPositional(c.name) || IsNamed(c.name) {
        EncodedCells(a, c.name, c.value);
        var d :| d in dict && d.name == c.name && Written(d.value) == c.value;
        var i :| 0 <= i < |dict| && dict[i] == d;
        assert i >= k ==> named[i - k] in named;
      }
    } else {
      var c :| c in named && c.name == "";
      var i :| 0 <= i < |named| && named[i] == c;
      assert !IsNamed(dict[k + i].name);
    }
  }

  lemma PositionInDict(a: Arguments, j: nat, v: Typed)
    ensures (exists c <- EncodedDict(a) :: c.name == POSITIONAL + Render(j) && Written(c.value) == v)
            <==> j < |a.positional| && Written(a.positional[j]) == v
  {
    hide Canonical, Render;
    var dict, key := EncodedDict(a), POSITIONAL + Render(j);
    if c :| c in dict && c.name == key && Written(c.value) == v {
      var i :| 0 <= i < |dict| && dict[i] == c;
      if i >= |a.positional| {
        PrefixesDiffer(a.named.GetOr([])[i - |a.positional|].name);
      } else {
        assert Rest(POSITIONAL, c.name) == Render(i) && Rest(POSITIONAL, key) == Render(j);
        RenderInjective(i, j);
      }
    }
    if j < |a.positional| {
      assert dict[j] in dict && dict[j].name == key;
    }
  }

  lemma NameInDict(a: Arguments, name: string, v: Typed)
    ensures (exists c <- EncodedDict(a) :: c.name == NAMED + name && Written(c.value) == v)
            <==> Cell(name, v) in a.named.GetOr([])
  {
    hide Canonical, Render;
    var dict, key, named, k := EncodedDict(a), NAMED + name, a.named.GetOr([]), |a.positional|;
    if c :| c in dict && c.name == key && Written(c.value) == v {
      var i :| 0 <= i < |dict| && dict[i] == c;
      PrefixesDiffer(name);
      assert i >= k;
      assert Rest(NAMED, key) == name && Rest(NAMED, c.name) == named[i - k].name;
    }
    if Cell(name, v) in named {
      var i :| 0 <= i < |named| && named[i] == Cell(name, v);
      assert dict[k + i] in dict && dict[k + i].name == key;
    }
  }

  /** The decoded position `j` is the encoded one, with a missing value read back as a typed null. */
  lemma EncodedPosition(a: Arguments, j: nat, v: Typed)
    requires WellFormed(a) && ToBatch(a).Some? && NamesAreKnown(Cells(ToBatch(a).value))
    ensures var values := PositionalPart(Cells(ToBatch(a).value));
            (j in values && values[j] == v) <==> j < |a.positional| && Written(a.positional[j]) == v
  {
    hide *;
    BatchIsDistinct(a);
    PositionalMeaning(Cells(ToBatch(a).value), j, v);
    EncodedCells(a, POSITIONAL + Render(j), v);
    PositionInDict(a, j, v);
  }

  lemma EncodedName(a: Arguments, name: string, v: Typed)
    requires WellFormed(a) && ToBatch(a).Some? && NamesAreKnown(Cells(ToBatch(a).value))
    ensures Cell(name, v) in NamedPart(Cells(ToBatch(a).value))
            <==> name != "" && Cell(name, v) in a.named.GetOr([])
  {
    hide *;
    BatchIsDistinct(a);
    NamedMeaning(Cells(ToBatch(a).value), name, v);
    EncodedCells(a, NAMED + name, v);
    NameInDict(a, name, v);
  }

  lemma BatchIsDistinct(a: Arguments)
    requires ToBatch(a).Some?
    ensures Distinct(Cells(ToBatch(a).value))
  {
    hide SchemaOf, EncodedDict, Admits;
  }

  /**
   Decoding an encoded batch succeeds exactly when no name is empty, and then keeps every named value and
   every positional value, a missing one being read back as a null of the null type.
   */
  lemma DecodeOfEncoded(a: Arguments)
    requires WellFormed(a) && ToBatch(a).Some?
    ensures FromBatch(ToBatch(a).value).Some? <==> NamesNonEmpty(a)
    ensures NamesNonEmpty(a) ==>
              var r := FromBatch(ToBatch(a).value).value;
              && |r.positional| == |a.positional|
              && (forall j :: 0 <= j < |a.positional| ==> r.positional[j] == Some(Written(a.positional[j])))
              && WellFormed(r)
              && (forall c: Cell<Typed> :: c in r.named.GetOr([]) <==> c in a.named.GetOr([]))
              && (r.named.None? <==> a.named.GetOr([]) == [])
              && r.argumentSchema == SchemaOf(a)
  {
    hide Canonical, Render, SchemaOf, EncodedDict, PositionalPart, NamedPart, Admits;
    var b := ToBatch(a).value;
    var cells := Cells(b);
    NamesAreKnownExactly(a);
    if NamesNonEmpty(a) {
      var values, named := PositionalPart(cells), NamedPart(cells);
      forall j: nat ensures j in values <==> j < |a.positional|
                    ensures j in values ==> values[j] == Written(a.positional[j])
      {
        if j in values {
          EncodedPosition(a, j, values[j]);
        }
        if j < |a.positional| {
          EncodedPosition(a, j, Written(a.positional[j]));
        }
      }
      KeysBelow(values, |a.positional|);
      forall c: Cell<Typed> ensures c in named <==> c in a.named.GetOr([]) {
        EncodedName(a, c.name, c.value);
      }
      BatchIsDistinct(a);
      NamedPartIsDistinct(cells);
      EmptyTogether(named, a.named.GetOr([]));
    }
  }

  lemma EmptyTogether<T>(a: seq<T>, b: seq<T>)
    requires forall x: T :: x in a <==> x in b
    ensures a == [] <==> b == []
  {
    assert a != [] ==> a[0] in b;
    assert b != [] ==> b[0] in a;
  }

  lemma {:induction false} KeysBelow(values: map<nat, Typed>, k: nat)
    requires forall j: nat :: j in values <==> j < k
    ensures |values| == k
  {
    if k > 0 {
      var fewer := map j: nat | j in values && j != k - 1 :: values[j];
      KeysBelow(fewer, k - 1);
      assert values == fewer[k - 1 := values[k - 1]];
    } else {
      assert values == map[];
    }
  }

  /** Encoding what a batch decodes to is the batch itself, in its own field order. */
  lemma EncodeOfDecoded(b: OneRow)
    requires FromBatch(b).Some?
    ensures WellFormed(FromBatch(b).value)
    ensures ToBatch(FromBatch(b).value) == Some(b)
  {
    hide Canonical, Render, Value, Admits, NamedPart, PositionalPart, Lookup;
    var a, cells, fields := FromBatch(b).value, Cells(b), b.schema.fields;
    NamedPartIsDistinct(cells);
    EncodedDictIsDistinct(a);
    PartsPartition(cells);
    NamesAreKept(b);
    LookupsAreKept(b);
    RowIsKept(b, a, EncodedDict(a));
  }

  lemma LookupsAreKept(b: OneRow)
    requires FromBatch(b).Some? && WellFormed(FromBatch(b).value)
    ensures var dict := EncodedDict(FromBatch(b).value);
            forall i :: 0 <= i < |b.row| ==> Lookup(dict, b.schema.fields[i].name) == Some(Some(Cells(b)[i].value))
  {
    hide FromBatch, EncodedDict, Lookup;
    var dict := EncodedDict(FromBatch(b).value);
    EncodedDictIsDistinct(FromBatch(b).value);
    forall i | 0 <= i < |b.row| ensures Lookup(dict, b.schema.fields[i].name) == Some(Some(Cells(b)[i].value)) {
      EntryForCell(b, i);
      LookupFinds(dict, b.schema.fields[i].name, Some(Cells(b)[i].value));
    }
  }

  lemma NamesAreKept(b: OneRow)
    requires FromBatch(b).Some?
    ensures FieldNames(b.schema.fields) == CellNames(EncodedDict(FromBatch(b).value))
  {
    hide FromBatch, EncodedDict;
    var dict, fields := EncodedDict(FromBatch(b).value), b.schema.fields;
    forall name | name in FieldNames(fields) ensures name in CellNames(dict) {
      var i :| 0 <= i < |fields| && fields[i].name == name;
      EntryForCell(b, i);
      var k :| 0 <= k < |dict| && dict[k] == Cell(name, Some(Cells(b)[i].value));
      assert dict[k].name == name;
    }
    forall name | name in CellNames(dict) ensures name in FieldNames(fields) {
      var k :| 0 <= k < |dict| && dict[k].name == name;
      CellForEntry(b, dict[k]);
    }
  }

  lemma RowIsKept(b: OneRow, a: Arguments, dict: seq<Cell<Option<Typed>>>)
    requires IsTypedBatch(b) && a.argumentSchema == Some(b.schema) && dict == EncodedDict(a) && |dict| == |b.row|
    requires FieldNames(b.schema.fields) == CellNames(dict)
    requires forall i :: 0 <= i < |b.row| ==> Lookup(dict, b.schema.fields[i].name) == Some(Some(Cells(b)[i].value))
    ensures ToBatch(a) == Some(b)
  {
    hide EncodedDict, Lookup, IsTypedBatch, FieldNames, CellNames;
    forall f <- b.schema.fields ensures var v := Lookup(dict, f.name); v.Some? && f.dtype == Written(v.value).dtype {
      var i :| 0 <= i < |b.row| && b.schema.fields[i] == f;
      assert Lookup(dict, b.schema.fields[i].name) == Some(Some(Cells(b)[i].value));
    }
    var row := seq(|b.row|,
                   i requires 0 <= i < |b.row| => Written(Lookup(dict, b.schema.fields[i].name).GetOr(None)).value);
    assert row == b.row;
  }

  lemma EntryForCell(b: OneRow, i: nat)
    requires FromBatch(b).Some? && i < |b.row|
    ensures Cell(Cells(b)[i].name, Some(Cells(b)[i].value)) in EncodedDict(FromBatch(b).value)
  {
    hide Canonical, Render, Value, Admits, NamedPart, PositionalPart;
    var a, cells := FromBatch(b).value, Cells(b);
    var c, dict := cells[i], EncodedDict(FromBatch(b).value);
    assert c in cells;
    if IsPositional(c.name) {
      NameOfIndex(c.name);
      var j := IndexOf(c.name);
      PositionalMeaning(cells, j, c.value);
      assert dict[j] == Cell(c.name, Some(c.value));
    } else {
      var name := Rest(NAMED, c.name);
      assert c.name == NAMED + name;
      NamedMeaning(cells, name, c.value);
      var k :| 0 <= k < |a.named.value| && a.named.value[k] == Cell(name, c.value);
      assert dict[|a.positional| + k] == Cell(c.name, Some(c.value));
    }
  }

  lemma CellForEntry(b: OneRow, c: Cell<Option<Typed>>)
    requires FromBatch(b).Some? && c in EncodedDict(FromBatch(b).value)
    ensures exists i :: 0 <= i < |b.row| && b.schema.fields[i].name == c.name
  {
    hide Canonical, Render, Value, Admits, NamedPart, PositionalPart;
    var a, cells := FromBatch(b).value, Cells(b);
    var dict := EncodedDict(a);
    var k :| 0 <= k < |dict| && dict[k] == c;
    var v := c.value.value;
    if k < |a.positional| {
      PositionalMeaning(cells, k, v);
    } else {
      var d := a.named.GetOr([])[k - |a.positional|];
      assert d in NamedPart(cells);
      NamedMeaning(cells, d.name, d.value);
    }
    assert Cell(c.name, v) in cells;
    var i :| 0 <= i < |cells| && cells[i] == Cell(c.name, v);
    assert b.schema.fields[i].name == c.name;
  }

  // ---- Which batches are arguments -------------------------------------------------------------

  /** Some column is called after the position. */
  predicate AtPosition(cells: seq<Cell<Typed>>, j: nat) { HasColumn(cells, "positional_" + Render(j)) }

  predicate HasColumn(cells: seq<Cell<Typed>>, name: string) { exists i :: 0 <= i < |cells| && cells[i].name == name }

  ghost predicate NamesPosition(name: string) { exists j: nat :: name == "positional_" + Render(j) }

  ghost predicate NamesName(name: string) { exists n: string :: n != "" && name == "named_" + n }

  lemma PositionalExactly(name: string)
    ensures IsPositional(name) <==> NamesPosition(name)
  {
    hide Canonical, Render, Value;
    if IsPositional(name) {
      NameOfIndex(name);
    }
    if j: nat :| name == "positional_" + Render(j) {
      IndexOfName(j);
    }
  }

  lemma NamedExactly(name: string)
    ensures IsNamed(name) <==> NamesName(name)
  {
    if IsNamed(name) {
      assert name == "named_" + name[6..];
    }
    if n: string :| n != "" && name == "named_" + n {
      assert name[6..] == n;
    }
  }

  lemma {:induction false} SmallSet(s: set<nat>, n: nat)
    requires forall x <- s :: x < n
    ensures |s| <= n
  {
    if n == 0 {
      assert s == {};
    } else {
      SmallSet(s - {n - 1}, n - 1);
      assert n - 1 in s ==> s == s - {n - 1} + {n - 1};
      assert n - 1 !in s ==> s == s - {n - 1};
    }
  }

  lemma {:induction false} LargeSet(s: set<nat>, n: nat)
    requires forall x: nat :: x < n ==> x in s
    ensures |s| >= n
  {
    if n > 0 {
      LargeSet(s - {n - 1}, n - 1);
      assert s == s - {n - 1} + {n - 1};
    }
  }

  /** Positions leave no gap exactly when below each there is every smaller one. */
  lemma ContiguousExactly(values: map<nat, Typed>)
    ensures Contiguous(values) <==> forall i: nat, j: nat :: i < j && j in values ==> i in values
  {
    assert |values.Keys| == |values|;
    if forall i: nat, j: nat :: i < j && j in values ==> i in values {
      forall i <- values.Keys ensures i < |values| {
        LargeSet(values.Keys, i + 1);
      }
      forall i: nat | i < |values| ensures i in values {
        if i !in values {
          SmallSet(values.Keys, i);
        }
      }
    }
  }

  ghost predicate KnownName(name: string) { NamesPosition(name) || NamesName(name) }

  lemma NamesExactly(cells: seq<Cell<Typed>>)
    ensures NamesAreKnown(cells) <==> forall c <- cells :: KnownName(c.name)
  {
    hide Canonical, Render, Value, IsPositional, IsNamed, NamesPosition, NamesName;
    forall c <- cells ensures IsPositional(c.name) || IsNamed(c.name) <==> KnownName(c.name) {
      PositionalExactly(c.name);
      NamedExactly(c.name);
    }
  }

  /**
   A typed batch means arguments exactly when each column is called after a position or, non-emptily, after a name,
   and no position is left out below another; each position and each name then has the value of its own column.
   */
  lemma ReadsExactly(b: OneRow)
    ensures FromBatch(b).Some?
            <==> && IsTypedBatch(b) && (forall c <- Cells(b) :: KnownName(c.name))
                 && (forall i: nat, j: nat :: i < j && AtPosition(Cells(b), j) ==> AtPosition(Cells(b), i))
    ensures FromBatch(b).Some? ==>
              forall j: nat, v :: j < |FromBatch(b).value.positional| && FromBatch(b).value.positional[j] == Some(v)
                                  <==> Cell("positional_" + Render(j), v) in Cells(b)
    ensures FromBatch(b).Some? ==>
              forall n: string, v :: Cell(n, v) in FromBatch(b).value.named.GetOr([])
                                     <==> n != "" && Cell("named_" + n, v) in Cells(b)
  {
    hide Canonical, Render, Value, NamesAreKnown, Admits, PositionalPart, NamedPart, Contiguous, AtPosition, KnownName;
    var cells := Cells(b);
    NamesExactly(cells);
    if IsTypedBatch(b) && NamesAreKnown(cells) {
      TypedIsDistinct(b);
      PartsExactly(cells);
      var values := PositionalPart(cells);
      ContiguousExactly(values);
      if Contiguous(values) {
        ContiguousIs(values);
      }
    }
  }

  lemma TypedIsDistinct(b: OneRow)
    requires IsTypedBatch(b)
    ensures Distinct(Cells(b))
  {
    hide Admits;
  }

  lemma ContiguousIs(values: map<nat, Typed>)
    requires Contiguous(values)
    ensures forall j: nat :: j in values <==> j < |values|
  {
  }

  lemma PartsExactly(cells: seq<Cell<Typed>>)
    requires NamesAreKnown(cells) && Distinct(cells)
    ensures forall j: nat :: j in PositionalPart(cells) <==> AtPosition(cells, j)
    ensures forall j: nat, v :: j in PositionalPart(cells) && PositionalPart(cells)[j] == v
                                <==> Cell("positional_" + Render(j), v) in cells
    ensures forall n: string, v :: Cell(n, v) in NamedPart(cells) <==> n != "" && Cell("named_" + n, v) in cells
  {
    hide Canonical, Render, Value, IsPositional, IsNamed, PositionalPart, NamedPart;
    forall j: nat, v
      ensures j in PositionalPart(cells) && PositionalPart(cells)[j] == v
              <==> Cell("positional_" + Render(j), v) in cells
    {
      PositionalMeaning(cells, j, v);
    }
    forall j: nat ensures j in PositionalPart(cells) <==> AtPosition(cells, j) {
      var name := "positional_" + Render(j);
      if j in PositionalPart(cells) {
        PositionalMeaning(cells, j, PositionalPart(cells)[j]);
      }
      if i :| 0 <= i < |cells| && cells[i].name == name {
        assert cells[i] == Cell(name, cells[i].value) && cells[i] in cells;
        PositionalMeaning(cells, j, cells[i].value);
      }
    }
    forall n: string, v ensures Cell(n, v) in NamedPart(cells) <==> n != "" && Cell("named_" + n, v) in cells {
      NamedMeaning(cells, n, v);
    }
  }

  /** Without a schema of its own the dictionary is written as it stands. */
  lemma PlainBatch(a: Arguments) returns (b: OneRow)
    requires WellFormed(a) && a.argumentSchema.None?
    ensures ToBatch(a) == if IsTypedBatch(b) then Some(b) else None
    ensures |b.row| == |EncodedDict(a)|
    ensures forall i :: 0 <= i < |b.row| ==>
              var v := Written(EncodedDict(a)[i].value);
              b.schema.fields[i] == Field(EncodedDict(a)[i].name, v.dtype, true, map[]) && b.row[i] == v.value
  {
    hide EncodedDict, IsTypedBatch, Lookup;
    var dict := EncodedDict(a);
    EncodedDictIsDistinct(a);
    forall i | 0 <= i < |dict| ensures Lookup(dict, dict[i].name) == Some(dict[i].value) {
      LookupFinds(dict, dict[i].name, dict[i].value);
      assert dict[i] in dict;
    }
    var schema := SchemaOf(a).value;
    b := RowBatch(schema, seq(|schema.fields|, i requires 0 <= i < |schema.fields| =>
                                Written(Lookup(dict, schema.fields[i].name).GetOr(None)).value));
  }

  lemma NoNulInDigits(i: nat)
    ensures '\0' !in "positional_" + Render(i)
  {
    RenderRoundTrip(i);
  }

  /**
   Arguments without a schema of their own are encoded exactly when no name holds a NUL and no list or struct in them
   holds a null it may not.
   */
  lemma EncodesExactly(a: Arguments)
    requires WellFormed(a) && a.argumentSchema.None?
    ensures ToBatch(a).Some?
            <==> && (forall c <- a.named.GetOr([]) :: '\0' !in c.name && Admits(true, c.value.dtype, c.value.value))
                 && forall i :: 0 <= i < |a.positional| && a.positional[i].Some? ==>
                      Admits(true, a.positional[i].value.dtype, a.positional[i].value.value)
  {
    hide Admits, ToBatch, EncodedDict;
    var b := PlainBatch(a);
    EncodedDictIsDistinct(a);
    var dict := EncodedDict(a);
    EntriesAre(a);
    hide WellFormed, Written;
    assert IsTypedBatch(b) <==> forall i :: 0 <= i < |dict| ==>
             '\0' !in dict[i].name && Admits(true, Written(dict[i].value).dtype, Written(dict[i].value).value);
  }

  /** The dictionary's entries, said of the arguments. */
  lemma EntriesAre(a: Arguments)
    ensures var dict := EncodedDict(a);
            && (forall i :: 0 <= i < |dict| ==> dict[i].name != "")
            && ((forall i :: 0 <= i < |dict| ==>
                   && '\0' !in dict[i].name
                   && Admits(true, Written(dict[i].value).dtype, Written(dict[i].value).value))
                <==> (forall c <- a.named.GetOr([]) ::
                        '\0' !in c.name && Admits(true, c.value.dtype, c.value.value))
                     && forall i :: 0 <= i < |a.positional| && a.positional[i].Some? ==>
                          Admits(true, a.positional[i].value.dtype, a.positional[i].value.value))
  {
    hide Admits, Render;
    var dict, k, named := EncodedDict(a), |a.positional|, a.named.GetOr([]);
    NullIsAdmitted();
    forall i | 0 <= i < k ensures '\0' !in dict[i].name && dict[i].name != "" && dict[i].value == a.positional[i] {
      NoNulInDigits(i);
    }
    forall i | 0 <= i < |named|
      ensures dict[k + i].name == "named_" + named[i].name && Written(dict[k + i].value) == named[i].value
      ensures '\0' in dict[k + i].name <==> '\0' in named[i].name
      ensures named[i] in named
    {
    }
    assert forall i :: k <= i < |dict| ==> dict[i] == dict[k + (i - k)];
  }

  lemma NullIsAdmitted()
    ensures Admits(true, Null, NullScalar)
  {
  }
}
