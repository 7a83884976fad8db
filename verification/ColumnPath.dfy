/** Schema lookups and edits by column path. */
module ColumnPath {
  import opened Common
  import opened Arrow

  type Path = seq<string>

  predicate ValidComponent(c: string) { c != "" && '\0' !in c }

  /** What `column_path_key` accepts. */
  predicate ValidPath(path: Path) {
    path != [] && forall i :: 0 <= i < |path| ==> ValidComponent(path[i])
  }

  /** The field a path leads to, when every component has exactly one match and every parent is a struct. */
  function Resolve(fields: seq<Field>, path: Path): Option<Field>
    requires path != []
    decreases |path|
  {
    var i :- Find(fields, path[0]);
    if |path| == 1 then Some(fields[i])
    else if !fields[i].dtype.Struct? then None
    else Resolve(fields[i].dtype.fields, path[1..])
  }

  /** `resolve_column_path`. */
  method ResolveColumnPath(schema: Schema, path: Path) returns (r: Option<Field>)
    ensures r == if ValidPath(path) then Resolve(schema.fields, path) else None
  {
    if !ValidPath(path) {
      return None;
    }
    r := None;
    var fields := schema.fields;
    for index := 0 to |path|
      invariant index < |path| ==> Resolve(schema.fields, path) == Resolve(fields, path[index..])
      invariant index == |path| ==> r == Resolve(schema.fields, path)
    {
      var i := Find(fields, path[index]);
      if i.None? {
        return None;
      }
      var definition := fields[i.value];
      if index < |path| - 1 {
        if !definition.dtype.Struct? {
          return None;
        }
        fields := definition.dtype.fields;
        assert path[index..][1..] == path[index + 1..];
      }
      r := Some(definition);
    }
  }

  datatype EditError = InvalidPath | WrongName | Ambiguous | AlreadyExists | NotFound | NotAStruct | LastField

  predicate TakenElsewhere(fields: seq<Field>, i: nat, name: string) {
    exists j | 0 <= j < |fields| :: j != i && fields[j].name == name
  }

  /** `edit`: `replacement` is absent for a drop; `add` appends it to the parent. */
  function Edit(fields: seq<Field>, key: Path, replacement: Option<Field>, add: bool): Result<seq<Field>, EditError>
    requires key != [] && (add ==> replacement.Some?)
    decreases |key|
  {
    var matches := Matches(fields, key[0]);
    if |matches| > 1 then Err(Ambiguous)
    else if |key| == 1 && add then
      if matches != [] then Err(AlreadyExists) else Ok(fields + [replacement.value])
    else if matches == [] then Err(NotFound)
    else
      var i := matches[0];
      if |key| > 1 then
        if !fields[i].dtype.Struct? then Err(NotAStruct)
        else
          var kids :- Edit(fields[i].dtype.fields, key[1..], replacement, add);
          Ok(fields[i := fields[i].(dtype := Struct(kids))])
      else if replacement.None? then
        if |fields| == 1 then Err(LastField) else Ok(fields[..i] + fields[i + 1..])
      else if TakenElsewhere(fields, i, replacement.value.name) then Err(AlreadyExists)
      else Ok(fields[i := replacement.value])
  }

  /** `replace_column_field`. */
  function ReplaceColumnField(schema: Schema, path: Path, replacement: Option<Field>, add: bool)
    : Result<Schema, EditError>
  {
    if !ValidPath(path) then Err(InvalidPath)
    else if replacement.Some? && !ValidPath([replacement.value.name]) then Err(InvalidPath)
    else if add && (replacement.None? || replacement.value.name != path[|path| - 1]) then Err(WrongName)
    else
      var fields :- Edit(schema.fields, path, replacement, add);
      Ok(schema.(fields := fields))
  }

  // ---- One level -------------------------------------------------------------------------------

  lemma FoundExactly(fields: seq<Field>, name: string, i: nat)
    ensures UniqueAt(fields, name, i) <==> Find(fields, name) == Some(i)
    ensures UniqueAt(fields, name, i) <==> Matches(fields, name) == [i]
    ensures Matches(fields, name) == [] <==> forall j :: 0 <= j < |fields| ==> fields[j].name != name
    ensures |Matches(fields, name)| == 1 ==>
            Find(fields, name).Some? && Matches(fields, name) == [Find(fields, name).value]
  {
    hide Matches;
    FindSpec(fields, name);
    var m := Matches(fields, name);
    if |m| == 1 {
      assert m == [m[0]];
    }
    if m != [] {
      assert fields[m[0]].name == name;
    }
  }

  /** Replacing one field by another is seen only through the two names. */
  lemma FindAfterUpdate(fields: seq<Field>, i: nat, f: Field, name: string)
    requires i < |fields| && fields[i].name != name && f.name != name
    ensures Find(fields[i := f], name) == Find(fields, name)
  {
    hide Find, Matches;
    var after := fields[i := f];
    forall k: nat
      ensures UniqueAt(after, name, k) <==> UniqueAt(fields, name, k)
    {
      assert forall j :: 0 <= j < |fields| ==> (after[j].name == name <==> fields[j].name == name);
    }
    SamePositions(fields, after, name);
  }

  lemma SamePositions(a: seq<Field>, b: seq<Field>, name: string)
    requires forall k: nat :: UniqueAt(a, name, k) <==> UniqueAt(b, name, k)
    ensures Find(a, name) == Find(b, name)
  {
    hide Find, Matches;
    FindSpec(a, name);
    FindSpec(b, name);
    if Find(a, name).Some? {
      assert UniqueAt(b, name, Find(a, name).value);
    } else if Find(b, name).Some? {
      assert UniqueAt(a, name, Find(b, name).value);
    }
  }

  /** The only field with a name, rather than its position. */
  function Lookup(fields: seq<Field>, name: string): Option<Field> {
    var i :- Find(fields, name);
    Some(fields[i])
  }

  lemma LookupAfterUpdate(fields: seq<Field>, i: nat, f: Field, name: string)
    requires i < |fields| && fields[i].name != name && f.name != name
    ensures Lookup(fields[i := f], name) == Lookup(fields, name)
  {
    hide Find;
    FindAfterUpdate(fields, i, f, name);
  }

  lemma LookupAfterDrop(fields: seq<Field>, i: nat, name: string)
    requires i < |fields| && fields[i].name != name
    ensures Lookup(fields[..i] + fields[i + 1..], name) == Lookup(fields, name)
  {
    hide Find, Matches;
    var after := fields[..i] + fields[i + 1..];
    FindSpec(fields, name);
    FindSpec(after, name);
    assert forall j :: 0 <= j < i ==> after[j] == fields[j];
    assert forall j :: i < j < |fields| ==> after[j - 1] == fields[j];
    var a, b := Find(fields, name), Find(after, name);
    if a.Some? {
      var k := if a.value < i then a.value else a.value - 1;
      assert UniqueAt(after, name, k);
    } else if b.Some? {
      UniqueBeforeDrop(fields, i, name, b.value);
    }
  }

  lemma UniqueBeforeDrop(fields: seq<Field>, i: nat, name: string, k: nat)
    requires i < |fields| && fields[i].name != name && UniqueAt(fields[..i] + fields[i + 1..], name, k)
    ensures UniqueAt(fields, name, if k < i then k else k + 1)
  {
    var after := fields[..i] + fields[i + 1..];
    forall j | 0 <= j < |fields| && fields[j].name == name
      ensures j == if k < i then k else k + 1
    {
      assert after[if j < i then j else j - 1].name == name;
    }
  }

  lemma LookupAfterAppend(fields: seq<Field>, f: Field, name: string)
    requires f.name != name
    ensures Lookup(fields + [f], name) == Lookup(fields, name)
  {
    hide Find, Matches;
    var after := fields + [f];
    assert forall j :: 0 <= j < |fields| ==> after[j] == fields[j];
    forall k: nat
      ensures UniqueAt(after, name, k) <==> UniqueAt(fields, name, k)
    {
      assert k == |fields| ==> after[k].name != name;
    }
    SamePositions(fields, after, name);
  }

  lemma ResolveByLookup(a: seq<Field>, b: seq<Field>, path: Path)
    requires path != [] && Lookup(a, path[0]) == Lookup(b, path[0])
    ensures Resolve(a, path) == Resolve(b, path)
  {
    hide Find;
  }

  // ---- Laws of edits ---------------------------------------------------------------------------

  /** Where the edited field is afterwards. */
  function NewPath(path: Path, replacement: Field): Path
    requires path != []
  {
    path[..|path| - 1] + [replacement.name]
  }

  lemma NewPathBelow(path: Path, f: Field)
    requires |path| > 1
    ensures NewPath(path, f)[1..] == NewPath(path[1..], f) && NewPath(path, f)[0] == path[0]
  {
  }

  /** One step of an edit that succeeds below the top level. */
  lemma EditBelow(fields: seq<Field>, key: Path, replacement: Option<Field>, add: bool)
    returns (i: nat, kids: seq<Field>)
    requires |key| > 1 && (add ==> replacement.Some?) && Edit(fields, key, replacement, add).Ok?
    ensures UniqueAt(fields, key[0], i) && fields[i].dtype.Struct?
    ensures Edit(fields[i].dtype.fields, key[1..], replacement, add) == Ok(kids)
    ensures Edit(fields, key, replacement, add) == Ok(fields[i := fields[i].(dtype := Struct(kids))])
    ensures UniqueAt(fields[i := fields[i].(dtype := Struct(kids))], key[0], i)
  {
    hide Find, Matches;
    i := Matches(fields, key[0])[0];
    FoundExactly(fields, key[0], i);
    assert Matches(fields, key[0]) == [i];
    kids := Edit(fields[i].dtype.fields, key[1..], replacement, add).value;
  }

  lemma ResolveBelow(fields: seq<Field>, path: Path, i: nat)
    requires path != [] && UniqueAt(fields, path[0], i)
    ensures Resolve(fields, path) == if |path| == 1 then Some(fields[i])
                                     else if fields[i].dtype.Struct? then Resolve(fields[i].dtype.fields, path[1..])
                                     else None
  {
    hide Matches;
    FindSpec(fields, path[0]);
  }

  /** After a successful edit the (possibly renamed) path resolves to the replacement. */
  lemma {:induction false} EditedResolvesToReplacement(fields: seq<Field>, key: Path, r: Field, add: bool)
    requires key != [] && Edit(fields, key, Some(r), add).Ok? && (add ==> r.name == key[|key| - 1])
    ensures Resolve(Edit(fields, key, Some(r), add).value, NewPath(key, r)) == Some(r)
    decreases |key|
  {
    hide Find, Matches, Edit, Resolve;
    var after := Edit(fields, key, Some(r), add).value;
    if |key| > 1 {
      var i, kids := EditBelow(fields, key, Some(r), add);
      EditedResolvesToReplacement(fields[i].dtype.fields, key[1..], r, add);
      NewPathBelow(key, r);
      ResolveBelow(after, NewPath(key, r), i);
    } else {
      var i := EditAtParent(fields, key, Some(r), add);
      assert NewPath(key, r) == [r.name];
      ResolveBelow(after, NewPath(key, r), i);
    }
  }

  /** What an edit does at the level of its target. */
  lemma EditAtParent(fields: seq<Field>, key: Path, replacement: Option<Field>, add: bool) returns (i: nat)
    requires |key| == 1 && (add ==> replacement.Some? && replacement.value.name == key[0])
    requires Edit(fields, key, replacement, add).Ok?
    ensures var after := Edit(fields, key, replacement, add).value;
            && (add ==> after == fields + [replacement.value] && i == |fields|
                        && forall j :: 0 <= j < |fields| ==> fields[j].name != key[0])
            && (!add ==> UniqueAt(fields, key[0], i))
            && (!add && replacement.Some? ==> after == fields[i := replacement.value])
            && (replacement.None? ==> after == fields[..i] + fields[i + 1..] && |fields| > 1)
            && (replacement.Some? ==> UniqueAt(after, replacement.value.name, i))
  {
    hide Find, Matches;
    var matches := Matches(fields, key[0]);
    if add {
      i := |fields|;
      FoundExactly(fields, key[0], 0);
    } else {
      i := matches[0];
      FoundExactly(fields, key[0], i);
      assert matches == [i];
    }
  }

  /** A dropped path, or one that was renamed, no longer resolves. */
  lemma {:induction false} OldPathIsGone(fields: seq<Field>, key: Path, replacement: Option<Field>)
    requires key != [] && Edit(fields, key, replacement, false).Ok?
    requires replacement.Some? ==> replacement.value.name != key[|key| - 1]
    ensures Resolve(Edit(fields, key, replacement, false).value, key) == None
    decreases |key|
  {
    hide Find, Matches, Edit, Resolve;
    var after := Edit(fields, key, replacement, false).value;
    if |key| > 1 {
      var i, kids := EditBelow(fields, key, replacement, false);
      OldPathIsGone(fields[i].dtype.fields, key[1..], replacement);
      ResolveBelow(after, key, i);
    } else {
      var i := EditAtParent(fields, key, replacement, false);
      assert forall j :: 0 <= j < |after| ==> after[j].name != key[0];
      NothingFound(after, key);
    }
  }

  lemma NothingFound(fields: seq<Field>, path: Path)
    requires path != [] && forall j :: 0 <= j < |fields| ==> fields[j].name != path[0]
    ensures Resolve(fields, path) == None
  {
    hide Matches;
    FoundExactly(fields, path[0], 0);
  }

  /** Neither path leads into, out of, or to the other. */
  predicate Unrelated(p: Path, q: Path) { !(p <= q) && !(q <= p) }

  /** Every path unrelated to the old and the new target resolves as before, or fails as before. */
  lemma {:induction false} UnrelatedPathsAreKept(fields: seq<Field>, key: Path, replacement: Option<Field>, add: bool,
                                                 q: Path)
    requires key != [] && q != [] && (add ==> replacement.Some? && replacement.value.name == key[|key| - 1])
    requires Edit(fields, key, replacement, add).Ok?
    requires Unrelated(key, q) && (replacement.Some? ==> Unrelated(NewPath(key, replacement.value), q))
    ensures Resolve(Edit(fields, key, replacement, add).value, q) == Resolve(fields, q)
    decreases |key|
  {
    hide Find, Matches, Edit, Resolve, Lookup;
    var after := Edit(fields, key, replacement, add).value;
    if |key| > 1 {
      var i, kids := EditBelow(fields, key, replacement, add);
      if q[0] == key[0] {
        assert |q| > 1;
        assert Unrelated(key[1..], q[1..]) by {
          ConsUnrelated(key, q);
        }
        if replacement.Some? {
          NewPathBelow(key, replacement.value);
          ConsUnrelated(NewPath(key, replacement.value), q);
        }
        UnrelatedPathsAreKept(fields[i].dtype.fields, key[1..], replacement, add, q[1..]);
        ResolveBelow(fields, q, i);
        ResolveBelow(after, q, i);
      } else {
        LookupAfterUpdate(fields, i, fields[i].(dtype := Struct(kids)), q[0]);
        ResolveByLookup(fields, after, q);
      }
    } else {
      var i := EditAtParent(fields, key, replacement, add);
      UnrelatedHeads(key, q);
      if replacement.Some? {
        assert NewPath(key, replacement.value) == [replacement.value.name];
        UnrelatedHeads(NewPath(key, replacement.value), q);
      }
      if add {
        LookupAfterAppend(fields, replacement.value, q[0]);
      } else if replacement.Some? {
        LookupAfterUpdate(fields, i, replacement.value, q[0]);
      } else {
        LookupAfterDrop(fields, i, q[0]);
      }
      ResolveByLookup(fields, after, q);
    }
  }

  lemma UnrelatedHeads(p: Path, q: Path)
    requires |p| == 1 && q != [] && Unrelated(p, q)
    ensures q[0] != p[0]
  {
    assert p == [p[0]] && q[..1] == [q[0]];
  }

  lemma ConsUnrelated(p: Path, q: Path)
    requires |p| > 0 && |q| > 0 && p[0] == q[0] && Unrelated(p, q)
    ensures Unrelated(p[1..], q[1..])
  {
    assert p == [p[0]] + p[1..] && q == [q[0]] + q[1..];
  }

  /** An ancestor of the target keeps its name, nullability and metadata, and is still a struct. */
  lemma {:induction false} AncestorsAreKept(fields: seq<Field>, key: Path, replacement: Option<Field>, add: bool,
                                            n: nat)
    requires 0 < n < |key| && (add ==> replacement.Some?) && Edit(fields, key, replacement, add).Ok?
    ensures var before := Resolve(fields, key[..n]);
            var after := Resolve(Edit(fields, key, replacement, add).value, key[..n]);
            && before.Some? && after.Some? && before.value.dtype.Struct? && after.value.dtype.Struct?
            && after.value == before.value.(dtype := after.value.dtype)
    decreases |key|
  {
    hide Find, Matches, Edit, Resolve;
    var i, kids := EditBelow(fields, key, replacement, add);
    var after := Edit(fields, key, replacement, add).value;
    ResolveBelow(fields, key[..n], i);
    ResolveBelow(after, key[..n], i);
    if n > 1 {
      AncestorsAreKept(fields[i].dtype.fields, key[1..], replacement, add, n - 1);
      assert key[..n][1..] == key[1..][..n - 1];
    }
  }

  /** Putting the old field back, under its old name, restores everything, positions included. */
  lemma {:induction false} RenameBackRestores(fields: seq<Field>, key: Path, r: Field)
    requires key != [] && Edit(fields, key, Some(r), false).Ok?
    ensures Resolve(fields, key).Some?
    ensures Edit(Edit(fields, key, Some(r), false).value, NewPath(key, r), Resolve(fields, key), false) == Ok(fields)
    decreases |key|
  {
    hide Find, Matches, Resolve;
    var after := Edit(fields, key, Some(r), false).value;
    if |key| > 1 {
      var i, kids := EditBelow(fields, key, Some(r), false);
      RenameBackRestores(fields[i].dtype.fields, key[1..], r);
      NewPathBelow(key, r);
      ResolveBelow(fields, key, i);
      FoundExactly(after, key[0], i);
      assert after[i := after[i].(dtype := fields[i].dtype)] == fields;
    } else {
      var i := EditAtParent(fields, key, Some(r), false);
      ResolveBelow(fields, key, i);
      FoundExactly(after, r.name, i);
      assert NewPath(key, r) == [r.name];
      assert !TakenElsewhere(after, i, fields[i].name);
      assert after[i := fields[i]] == fields;
    }
  }

  /** The fields among which the last component of a path is looked up. */
  function ParentFields(fields: seq<Field>, key: Path): Option<seq<Field>>
    requires key != []
  {
    if |key| == 1 then Some(fields)
    else
      var parent :- Resolve(fields, key[..|key| - 1]);
      if parent.dtype.Struct? then Some(parent.dtype.fields) else None
  }

  lemma ParentBelow(fields: seq<Field>, key: Path, i: nat)
    requires |key| > 1 && UniqueAt(fields, key[0], i) && fields[i].dtype.Struct?
    ensures ParentFields(fields, key) == ParentFields(fields[i].dtype.fields, key[1..])
  {
    hide Resolve;
    var p := key[..|key| - 1];
    ResolveBelow(fields, p, i);
    assert p[1..] == key[1..][..|key[1..]| - 1];
  }

  /**
   Whether the target's siblings can be edited: an addition's name must be new; a replacement may take no other
   sibling's name; a drop must leave some sibling.
   */
  ghost predicate Editable(siblings: seq<Field>, name: string, replacement: Option<Field>, add: bool) {
    if add then replacement.Some? && forall j :: 0 <= j < |siblings| ==> siblings[j].name != name
    else
      exists i: nat :: UniqueAt(siblings, name, i)
        && match replacement
           case None => |siblings| > 1
           case Some(r) => forall j :: 0 <= j < |siblings| && j != i ==> siblings[j].name != r.name
  }

  /** What becomes of them: an addition comes last, a replacement keeps its place, and a drop leaves the others. */
  ghost predicate EditsSiblings(siblings: seq<Field>, name: string, replacement: Option<Field>, add: bool,
                                after: seq<Field>) {
    if add then replacement.Some? && after == siblings + [replacement.value]
    else
      exists i: nat :: UniqueAt(siblings, name, i)
        && after == if replacement.Some? then siblings[i := replacement.value] else siblings[..i] + siblings[i + 1..]
  }

  /** An edit at the top level. */
  lemma TopEdit(fields: seq<Field>, key: Path, replacement: Option<Field>, add: bool)
    requires |key| == 1 && (add ==> replacement.Some?)
    ensures var r := Edit(fields, key, replacement, add);
            && (r.Ok? <==> Editable(fields, key[0], replacement, add))
            && (r.Ok? ==> EditsSiblings(fields, key[0], replacement, add, r.value))
  {
    hide Find, Matches;
    var m := Matches(fields, key[0]);
    forall i: nat ensures UniqueAt(fields, key[0], i) <==> m == [i] {
      FoundExactly(fields, key[0], i);
    }
    FoundExactly(fields, key[0], 0);
    if |m| == 1 {
      assert m == [m[0]] && UniqueAt(fields, key[0], m[0]);
    }
  }

  lemma ParentMissing(fields: seq<Field>, key: Path)
    requires |key| > 1
    ensures ParentFields(fields, key).Some? ==> exists i: nat :: UniqueAt(fields, key[0], i) && fields[i].dtype.Struct?
  {
    hide Matches;
    FindSpec(fields, key[0]);
    var p := key[..|key| - 1];
    assert p[0] == key[0];
    if Find(fields, p[0]).Some? {
      assert UniqueAt(fields, key[0], Find(fields, p[0]).value);
    }
  }

  lemma EditWithin(fields: seq<Field>, key: Path, replacement: Option<Field>, add: bool, i: nat)
    requires |key| > 1 && (add ==> replacement.Some?) && UniqueAt(fields, key[0], i) && fields[i].dtype.Struct?
    ensures Edit(fields, key, replacement, add).Ok? <==> Edit(fields[i].dtype.fields, key[1..], replacement, add).Ok?
  {
    hide Find, Matches;
    FoundExactly(fields, key[0], i);
  }

  /**
   An edit succeeds exactly when the parent of its target is there, is the only one, and lets its own fields be edited
   so; and then the parent's fields are what the edit makes of them.
   */
  lemma {:induction false} EditedExactly(fields: seq<Field>, key: Path, replacement: Option<Field>, add: bool)
    requires key != [] && (add ==> replacement.Some?)
    ensures var siblings, name, r := ParentFields(fields, key), key[|key| - 1], Edit(fields, key, replacement, add);
            && (r.Ok? <==> siblings.Some? && Editable(siblings.value, name, replacement, add))
            && (r.Ok? ==> && ParentFields(r.value, key).Some?
                          && EditsSiblings(siblings.value, name, replacement, add, ParentFields(r.value, key).value))
    decreases |key|
  {
    hide Find, Matches, Edit, ParentFields, EditsSiblings, Editable;
    if |key| == 1 {
      TopEdit(fields, key, replacement, add);
      TopParent(fields, key);
      if Edit(fields, key, replacement, add).Ok? {
        TopParent(Edit(fields, key, replacement, add).value, key);
      }
    } else if Edit(fields, key, replacement, add).Ok? {
      var i, kids := EditBelow(fields, key, replacement, add);
      var after := Edit(fields, key, replacement, add).value;
      EditedExactly(fields[i].dtype.fields, key[1..], replacement, add);
      ParentBelow(fields, key, i);
      ParentBelow(after, key, i);
    } else if ParentFields(fields, key).Some? {
      ParentMissing(fields, key);
      var i: nat :| UniqueAt(fields, key[0], i) && fields[i].dtype.Struct?;
      EditWithin(fields, key, replacement, add, i);
      EditedExactly(fields[i].dtype.fields, key[1..], replacement, add);
      ParentBelow(fields, key, i);
    }
  }

  /** The same for `replace_column_field`, with its checks on the path and on the names. */
  lemma SchemaEditedExactly(schema: Schema, path: Path, replacement: Option<Field>, add: bool)
    ensures var r := ReplaceColumnField(schema, path, replacement, add);
            && (r.Ok? <==>
                && path != [] && (forall c <- path :: c != "" && '\0' !in c)
                && (replacement.Some? ==> replacement.value.name != "" && '\0' !in replacement.value.name)
                && (add ==> replacement.Some? && replacement.value.name == path[|path| - 1])
                && ParentFields(schema.fields, path).Some?
                && Editable(ParentFields(schema.fields, path).value, path[|path| - 1], replacement, add))
            && (r.Ok? ==>
                && r.value.metadata == schema.metadata && ParentFields(r.value.fields, path).Some?
                && EditsSiblings(ParentFields(schema.fields, path).value, path[|path| - 1], replacement, add,
                                 ParentFields(r.value.fields, path).value))
  {
    hide Edit, ParentFields, Editable, EditsSiblings;
    if ValidPath(path) && (add ==> replacement.Some?) {
      EditedExactly(schema.fields, path, replacement, add);
    }
    assert ValidPath(path) <==> path != [] && forall c <- path :: ValidComponent(c);
    assert replacement.Some? ==> [replacement.value.name][0] == replacement.value.name;
  }

  /** Dropping what was just added restores everything exactly when the parent had some field before. */
  lemma {:induction false} DropUndoesAdd(fields: seq<Field>, key: Path, r: Field)
    requires key != [] && r.name == key[|key| - 1] && Edit(fields, key, Some(r), true).Ok?
    ensures ParentFields(fields, key).Some?
    ensures Edit(Edit(fields, key, Some(r), true).value, key, None, false)
         == if ParentFields(fields, key).value != [] then Ok(fields) else Err(LastField)
    decreases |key|
  {
    hide Find, Matches, ParentFields;
    var after := Edit(fields, key, Some(r), true).value;
    if |key| > 1 {
      var i, kids := EditBelow(fields, key, Some(r), true);
      DropUndoesAdd(fields[i].dtype.fields, key[1..], r);
      ParentBelow(fields, key, i);
      FoundExactly(after, key[0], i);
      assert after[i := after[i].(dtype := fields[i].dtype)] == fields;
    } else {
      var i := EditAtParent(fields, key, Some(r), true);
      FoundExactly(after, key[0], i);
      TopParent(fields, key);
      assert after[..i] + after[i + 1..] == fields;
    }
  }

  lemma TopParent(fields: seq<Field>, key: Path)
    requires |key| == 1
    ensures ParentFields(fields, key) == Some(fields)
  {
  }

  /** The laws for whole schemas: metadata is kept, and undoing an edit restores the schema itself. */
  lemma SchemaEditsUndo(schema: Schema, path: Path, r: Field)
    ensures var edited := ReplaceColumnField(schema, path, Some(r), false);
            edited.Ok? ==>
              && edited.value.metadata == schema.metadata
              && Resolve(schema.fields, path).Some?
              && ReplaceColumnField(edited.value, NewPath(path, r), Resolve(schema.fields, path), false) == Ok(schema)
    ensures var added := ReplaceColumnField(schema, path, Some(r), true);
            added.Ok? && ParentFields(schema.fields, path) != Some([]) ==>
              ReplaceColumnField(added.value, path, None, false) == Ok(schema)
  {
    hide Find, Matches, Edit, ParentFields, Resolve;
    if ReplaceColumnField(schema, path, Some(r), false).Ok? {
      RenameBackRestores(schema.fields, path, r);
      ResolvedName(schema.fields, path);
      assert ValidPath(NewPath(path, r));
      assert [Resolve(schema.fields, path).value.name] == [path[|path| - 1]];
    }
    if ReplaceColumnField(schema, path, Some(r), true).Ok? {
      DropUndoesAdd(schema.fields, path, r);
    }
  }

  lemma {:induction false} ResolvedName(fields: seq<Field>, path: Path)
    requires path != [] && Resolve(fields, path).Some?
    ensures Resolve(fields, path).value.name == path[|path| - 1]
    decreases |path|
  {
    hide Matches;
    if |path| > 1 {
      ResolvedName(fields[Find(fields, path[0]).value].dtype.fields, path[1..]);
    }
  }

  // ---- Required filter paths -------------------------------------------------------------------

  type Groups = seq<seq<Path>>

  /** What the constructor of `RequiredFilterPaths` accepts. */
  predicate WellFormed(groups: Groups) {
    forall g <- groups :: g != [] && (forall p <- g :: ValidPath(p)) && forall i, j :: 0 <= i < j < |g| ==> g[i] != g[j]
  }

  /** `is_satisfied_by`; None when a present path is malformed. */
  function IsSatisfiedBy(groups: Groups, present: seq<Path>): Option<bool> {
    if exists p | p in present :: !ValidPath(p) then None
    else
      var keys := set p <- present;
      Some(forall g | g in groups ::
             exists required | required in g :: exists n | 1 <= n <= |required| :: required[..n] in keys)
  }

  /** A group is satisfied when a present path is a component prefix of one of its members. */
  lemma SatisfiedMeansPrefix(groups: Groups, present: seq<Path>)
    requires forall p <- present :: ValidPath(p)
    ensures IsSatisfiedBy(groups, present) == Some(forall g <- groups :: Meets(g, present))
  {
    forall required: Path
      ensures (exists n :: 1 <= n <= |required| && required[..n] in set p <- present)
         <==> (exists p <- present :: p <= required)
    {
      forall p | p in present && p <= required
        ensures 1 <= |p| <= |required| && required[..|p|] in set p <- present
      {
        assert required[..|p|] == p;
      }
    }
  }

  /** More present paths never lose satisfaction. */
  lemma SatisfactionIsMonotone(groups: Groups, present: seq<Path>, more: seq<Path>)
    requires (forall p <- more :: ValidPath(p)) && forall p <- present :: p in more
    ensures IsSatisfiedBy(groups, present) == Some(true) ==> IsSatisfiedBy(groups, more) == Some(true)
  {
    hide ValidPath, IsSatisfiedBy;
    SatisfiedMeansPrefix(groups, present);
    SatisfiedMeansPrefix(groups, more);
  }

  // ---- Legacy dotted names ---------------------------------------------------------------------

  function Join(path: Path): string {
    if path == [] then "" else if |path| == 1 then path[0] else path[0] + "." + Join(path[1..])
  }

  /** The paths of all fields, parents before children, under a prefix. */
  function Flatten(fields: seq<Field>, prefix: Path): seq<Path> {
    if fields == [] then []
    else
      var f := fields[|fields| - 1];
      var path := prefix + [f.name];
      Flatten(fields[..|fields| - 1], prefix) + [path] + if f.dtype.Struct? then Flatten(f.dtype.fields, path) else []
  }

  function Spelled(paths: seq<Path>, name: string): seq<Path> {
    if paths == [] then []
    else
      Spelled(paths[..|paths| - 1], name)
      + if Join(paths[|paths| - 1]) == name then [paths[|paths| - 1]] else []
  }

  lemma {:induction false} SpelledOfConcat(a: seq<Path>, b: seq<Path>, name: string)
    ensures Spelled(a + b, name) == Spelled(a, name) + Spelled(b, name)
  {
    if b == [] {
      assert a + b == a;
    } else {
      SpelledOfConcat(a, b[..|b| - 1], name);
      assert (a + b)[..|a + b| - 1] == a + b[..|b| - 1];
    }
  }

  type Filed = map<string, seq<Path>>

  function Get(paths: Filed, name: string): seq<Path> { if name in paths then paths[name] else [] }

  /** `paths.setdefault(".".join(path), []).append(path)`, path by path. */
  function FileAll(filed: Filed, paths: seq<Path>): Filed {
    if paths == [] then filed
    else
      var path := paths[|paths| - 1];
      var before := FileAll(filed, paths[..|paths| - 1]);
      before[Join(path) := Get(before, Join(path)) + [path]]
  }

  lemma {:induction false} FileAllOfConcat(filed: Filed, a: seq<Path>, b: seq<Path>)
    ensures FileAll(filed, a + b) == FileAll(FileAll(filed, a), b)
  {
    if b == [] {
      assert a + b == a;
    } else {
      FileAllOfConcat(filed, a, b[..|b| - 1]);
      assert (a + b)[..|a + b| - 1] == a + b[..|b| - 1];
    }
  }

  /** What is filed under a name are the paths spelled so, in order. */
  lemma {:induction false} FiledUnderName(filed: Filed, paths: seq<Path>, name: string)
    ensures Get(FileAll(filed, paths), name) == Get(filed, name) + Spelled(paths, name)
  {
    hide Join;
    if paths != [] {
      FiledUnderName(filed, paths[..|paths| - 1], name);
    }
  }

  class LegacyPaths {
    var paths: Filed

    constructor ()
      ensures paths == map[]
    {
      paths := map[];
    }

    /** `collect`: files every path under its dotted spelling; false when a component is malformed. */
    method Collect(fields: seq<Field>, prefix: Path) returns (ok: bool)
      modifies this
      ensures ok <==> forall p <- Flatten(fields, prefix) :: ValidPath(p)
      ensures ok ==> paths == FileAll(old(paths), Flatten(fields, prefix))
      decreases fields
    {
      hide ValidPath, FileAll, Flatten;
      assert fields[..|fields|] == fields;
      NothingFlattened(old(paths), prefix);
      for i := 0 to |fields|
        invariant forall p <- Flatten(fields[..i], prefix) :: ValidPath(p)
        invariant paths == FileAll(old(paths), Flatten(fields[..i], prefix))
      {
        var f := fields[i];
        var path := prefix + [f.name];
        ghost var before, kids := Flatten(fields[..i], prefix),
                                  if f.dtype.Struct? then Flatten(f.dtype.fields, path) else [];
        FlattenOneMore(fields, i, prefix);
        FlattenPrefix(fields, i + 1, prefix);
        FileAllOfConcat(old(paths), before + [path], kids);
        FileAllOfConcat(old(paths), before, [path]);
        FileOne(paths, path);
        assert path in before + [path] + kids;
        if !ValidPath(path) {
          ok := false;
          return;
        }
        paths := paths[Join(path) := Get(paths, Join(path)) + [path]];
        if f.dtype.Struct? {
          var below := Collect(f.dtype.fields, path);
          if !below {
            assert forall p <- kids :: p in before + [path] + kids;
            ok := false;
            return;
          }
        }
        FileNone(FileAll(old(paths), before + [path]));
      }
      ok := true;
    }
  }

  lemma NothingFlattened(filed: Filed, prefix: Path)
    ensures Flatten([], prefix) == [] && FileAll(filed, []) == filed
  {
  }

  lemma FileNone(filed: Filed)
    ensures FileAll(filed, []) == filed
  {
  }

  lemma FileOne(filed: Filed, path: Path)
    ensures FileAll(filed, [path]) == filed[Join(path) := Get(filed, Join(path)) + [path]]
  {
    assert [path][..0] == [];
  }

  lemma FlattenOneMore(fields: seq<Field>, i: nat, prefix: Path)
    requires i < |fields|
    ensures var f := fields[i];
            Flatten(fields[..i + 1], prefix)
            == Flatten(fields[..i], prefix) + [prefix + [f.name]]
               + if f.dtype.Struct? then Flatten(f.dtype.fields, prefix + [f.name]) else []
  {
    assert fields[..i + 1][..i] == fields[..i];
  }

  lemma {:induction false} FlattenPrefix(fields: seq<Field>, i: nat, prefix: Path)
    requires i <= |fields|
    ensures forall p <- Flatten(fields[..i], prefix) :: p in Flatten(fields, prefix)
    decreases |fields| - i
  {
    if i == |fields| {
      assert fields[..i] == fields;
    } else {
      FlattenOneMore(fields, i, prefix);
      FlattenPrefix(fields, i + 1, prefix);
    }
  }

  /** The one path a dotted name stands for. */
  function Migrate(fields: seq<Field>, name: string): Option<Path> {
    var matches := Spelled(Flatten(fields, []), name);
    if |matches| == 1 then Some(matches[0]) else None
  }

  function MigrateGroup(fields: seq<Field>, names: seq<string>): Option<seq<Path>> {
    if names == [] then Some([])
    else
      var init :- MigrateGroup(fields, names[..|names| - 1]);
      var last :- Migrate(fields, names[|names| - 1]);
      Some(init + [last])
  }

  function MigrateAll(fields: seq<Field>, groups: seq<seq<string>>): Option<Groups> {
    if groups == [] then Some([])
    else
      var init :- MigrateAll(fields, groups[..|groups| - 1]);
      var last :- MigrateGroup(fields, groups[|groups| - 1]);
      Some(init + [last])
  }

  function LegacyGroups(groups: seq<seq<string>>, schema: Schema): Option<Groups> {
    if exists p | p in Flatten(schema.fields, []) :: !ValidPath(p) then None
    else
      var r :- MigrateAll(schema.fields, groups);
      if WellFormed(r) then Some(r) else None
  }

  lemma {:induction false} MigrateGroupPrefix(fields: seq<Field>, names: seq<string>, i: nat)
    requires i < |names|
    ensures MigrateGroup(fields, names[..i + 1]).None? ==> MigrateGroup(fields, names).None?
    ensures names[..i + 1][..i] == names[..i]
    decreases |names|
  {
    hide Migrate;
    if i + 1 < |names| {
      MigrateGroupPrefix(fields, names[..|names| - 1], i);
      assert names[..|names| - 1][..i + 1] == names[..i + 1];
    } else {
      assert names[..i + 1] == names;
    }
  }

  lemma {:induction false} MigrateAllPrefix(fields: seq<Field>, groups: seq<seq<string>>, i: nat)
    requires i < |groups|
    ensures MigrateAll(fields, groups[..i + 1]).None? ==> MigrateAll(fields, groups).None?
    ensures groups[..i + 1][..i] == groups[..i]
    decreases |groups|
  {
    hide MigrateGroup;
    if i + 1 < |groups| {
      MigrateAllPrefix(fields, groups[..|groups| - 1], i);
      assert groups[..|groups| - 1][..i + 1] == groups[..i + 1];
    } else {
      assert groups[..i + 1] == groups;
    }
  }

  method MigrateOneGroup(paths: Filed, fields: seq<Field>, names: seq<string>) returns (r: Option<seq<Path>>)
    requires paths == FileAll(map[], Flatten(fields, []))
    ensures r == MigrateGroup(fields, names)
  {
    hide FileAll, Flatten, Spelled;
    var alternatives: seq<Path> := [];
    for j := 0 to |names|
      invariant MigrateGroup(fields, names[..j]) == Some(alternatives)
    {
      MigrateGroupPrefix(fields, names, j);
      FiledUnderName(map[], Flatten(fields, []), names[j]);
      var matches := Get(paths, names[j]);
      if |matches| != 1 {
        return None;
      }
      alternatives := alternatives + [matches[0]];
    }
    assert names[..|names|] == names;
    return Some(alternatives);
  }

  /** The path at `k` is the only one of a schema's paths that joins to the name. */
  ghost predicate OnlyAt(paths: seq<Path>, name: string, k: int) {
    0 <= k < |paths| && forall m :: 0 <= m < |paths| ==> (Join(paths[m]) == name <==> m == k)
  }

  ghost predicate HasOnePath(paths: seq<Path>, name: string) { exists k :: OnlyAt(paths, name, k) }

  ghost predicate OnlyPath(paths: seq<Path>, name: string, p: Path) {
    exists k :: OnlyAt(paths, name, k) && paths[k] == p
  }

  lemma OnePathPerName(paths: seq<Path>, a: string, p: Path, b: string, q: Path)
    requires OnlyPath(paths, a, p) && OnlyPath(paths, b, q)
    ensures p == q <==> a == b
    ensures p in paths && Join(p) == a
  {
    hide Join;
    var k :| OnlyAt(paths, a, k) && paths[k] == p;
    var m :| OnlyAt(paths, b, m) && paths[m] == q;
  }

  lemma {:induction false} SpelledOnce(paths: seq<Path>, name: string)
    ensures |Spelled(paths, name)| == 1 <==> HasOnePath(paths, name)
    ensures |Spelled(paths, name)| == 1 ==> OnlyPath(paths, name, Spelled(paths, name)[0])
  {
    hide Join;
    if paths != [] {
      var n := |paths| - 1;
      SpelledOnce(paths[..n], name);
      SpelledNone(paths[..n], name);
      assert forall m :: 0 <= m < n ==> paths[..n][m] == paths[m];
      if Join(paths[n]) == name {
        assert Spelled(paths[..n], name) == [] ==> OnlyAt(paths, name, n);
        assert forall k :: OnlyAt(paths, name, k) ==> k == n;
      } else {
        assert forall k :: OnlyAt(paths, name, k) <==> OnlyAt(paths[..n], name, k);
      }
    }
  }

  lemma {:induction false} SpelledNone(paths: seq<Path>, name: string)
    ensures Spelled(paths, name) == [] <==> forall m :: 0 <= m < |paths| ==> Join(paths[m]) != name
  {
    hide Join;
    if paths != [] {
      SpelledNone(paths[..|paths| - 1], name);
    }
  }

  lemma MigratedIsOnly(fields: seq<Field>, name: string)
    ensures Migrate(fields, name).Some? <==> HasOnePath(Flatten(fields, []), name)
    ensures Migrate(fields, name).Some? ==> OnlyPath(Flatten(fields, []), name, Migrate(fields, name).value)
  {
    hide Flatten, Spelled, OnlyAt;
    SpelledOnce(Flatten(fields, []), name);
  }

  /** Each name of the group stands for the one path of the schema that joins to it. */
  ghost predicate GroupStandsFor(paths: seq<Path>, names: seq<string>, r: seq<Path>) {
    |r| == |names| && forall j :: 0 <= j < |names| ==> OnlyPath(paths, names[j], r[j])
  }

  lemma {:induction false} GroupIsMigrated(fields: seq<Field>, names: seq<string>)
    ensures var r := MigrateGroup(fields, names);
            && (r.Some? <==> forall j :: 0 <= j < |names| ==> HasOnePath(Flatten(fields, []), names[j]))
            && (r.Some? ==> GroupStandsFor(Flatten(fields, []), names, r.value))
  {
    hide Migrate, Flatten, HasOnePath, OnlyPath;
    if names != [] {
      var n := |names| - 1;
      GroupIsMigrated(fields, names[..n]);
      MigratedIsOnly(fields, names[n]);
      assert forall j :: 0 <= j < n ==> names[..n][j] == names[j];
      assert MigrateGroup(fields, names).Some?
             <==> MigrateGroup(fields, names[..n]).Some? && Migrate(fields, names[n]).Some?;
    }
  }

  lemma {:induction false} AllAreMigrated(fields: seq<Field>, groups: seq<seq<string>>)
    ensures var r := MigrateAll(fields, groups);
            && (r.Some? <==> forall i :: 0 <= i < |groups| ==> MigrateGroup(fields, groups[i]).Some?)
            && (r.Some? ==> |r.value| == |groups|
                            && forall i :: 0 <= i < |groups| ==> MigrateGroup(fields, groups[i]) == Some(r.value[i]))
  {
    hide MigrateGroup;
    if groups != [] {
      var n := |groups| - 1;
      AllAreMigrated(fields, groups[..n]);
      assert forall i :: 0 <= i < n ==> groups[..n][i] == groups[i];
    }
  }

  /** Different names stand for different paths. */
  lemma NamesTellPathsApart(paths: seq<Path>, names: seq<string>, r: seq<Path>)
    requires GroupStandsFor(paths, names, r)
    ensures (forall i, j :: 0 <= i < j < |r| ==> r[i] != r[j])
            <==> (forall i, j :: 0 <= i < j < |names| ==> names[i] != names[j])
  {
    hide OnlyPath;
    forall i, j | 0 <= i < j < |r| ensures r[i] == r[j] <==> names[i] == names[j] {
      OnePathPerName(paths, names[i], r[i], names[j], r[j]);
    }
  }

  ghost predicate Convertible(paths: seq<Path>, groups: seq<seq<string>>) {
    && (forall p <- paths, c <- p :: c != "" && '\0' !in c)
    && (forall g <- groups :: g != [] && (forall i, j :: 0 <= i < j < |g| ==> g[i] != g[j])
                              && forall name <- g :: HasOnePath(paths, name))
  }

  lemma WellFormedGroup(paths: seq<Path>, names: seq<string>, r: seq<Path>)
    requires GroupStandsFor(paths, names, r) && forall p <- paths :: ValidPath(p)
    ensures WellFormed([r]) <==> names != [] && forall i, j :: 0 <= i < j < |names| ==> names[i] != names[j]
  {
    hide OnlyPath, ValidPath;
    NamesTellPathsApart(paths, names, r);
    forall p | p in r ensures ValidPath(p) {
      var j :| 0 <= j < |r| && r[j] == p;
      OnePathPerName(paths, names[j], p, names[j], p);
    }
    assert [r][0] == r;
  }

  lemma WellFormedEach(groups: Groups)
    ensures WellFormed(groups) <==> forall g <- groups :: WellFormed([g])
  {
    hide ValidPath;
    forall g: seq<Path> ensures forall x :: x in [g] <==> x == g {
    }
  }

  lemma PathsAreValid(fields: seq<Field>)
    ensures (forall p <- Flatten(fields, []) :: ValidPath(p))
            <==> (forall p <- Flatten(fields, []), c <- p :: c != "" && '\0' !in c)
  {
    hide Flatten;
    forall p | p in Flatten(fields, [])
      ensures ValidPath(p) <==> forall c <- p :: c != "" && '\0' !in c
    {
      FlattenExtends(fields, [], p);
      assert forall i :: 0 <= i < |p| ==> p[i] in p;
    }
  }

  /**
   `from_legacy`; None for every error it raises. Each group keeps its place and each name in it stands for the one
   path of the schema that joins to it; it refuses exactly when some component of the schema is empty or holds a NUL,
   a group is empty or repeats a name, or a name has not exactly one path.
   */
  method FromLegacy(groups: seq<seq<string>>, schema: Schema) returns (r: Option<Groups>)
    ensures r.Some? <==> Convertible(Flatten(schema.fields, []), groups)
    ensures r.Some? ==> |r.value| == |groups|
    ensures r.Some? ==> forall i :: 0 <= i < |groups| ==>
              |r.value[i]| == |groups[i]|
              && forall j :: 0 <= j < |groups[i]| ==> OnlyPath(Flatten(schema.fields, []), groups[i][j], r.value[i][j])
    ensures r == LegacyGroups(groups, schema)
  {
    LegacyGroupsAre(groups, schema);
    hide Convertible, OnlyPath;
    hide FileAll, Flatten, MigrateGroup, ValidPath, WellFormed;
    var legacy := new LegacyPaths();
    var ok := legacy.Collect(schema.fields, []);
    if !ok {
      return None;
    }
    var paths := legacy.paths;
    var result: Groups := [];
    for i := 0 to |groups|
      invariant MigrateAll(schema.fields, groups[..i]) == Some(result)
    {
      MigrateAllPrefix(schema.fields, groups, i);
      var alternatives := MigrateOneGroup(paths, schema.fields, groups[i]);
      if alternatives.None? {
        return None;
      }
      result := result + [alternatives.value];
    }
    assert groups[..|groups|] == groups;
    if !WellFormed(result) {
      return None;
    }
    return Some(result);
  }

  /** What the migration makes of the groups, in terms of the paths of the schema. */
  lemma LegacyGroupsAre(groups: seq<seq<string>>, schema: Schema)
    ensures var r, paths := LegacyGroups(groups, schema), Flatten(schema.fields, []);
            && (r.Some? <==> Convertible(paths, groups))
            && (r.Some? ==> |r.value| == |groups|
                            && forall i :: 0 <= i < |groups| ==> GroupStandsFor(paths, groups[i], r.value[i]))
  {
    hide Flatten, ValidPath, WellFormed, MigrateAll, MigrateGroup, GroupStandsFor, HasOnePath;
    var fields, paths := schema.fields, Flatten(schema.fields, []);
    PathsAreValid(fields);
    AllAreMigrated(fields, groups);
    forall i | 0 <= i < |groups|
      ensures MigrateGroup(fields, groups[i]).Some? <==> forall name <- groups[i] :: HasOnePath(paths, name)
      ensures MigrateGroup(fields, groups[i]).Some? ==>
                GroupStandsFor(paths, groups[i], MigrateGroup(fields, groups[i]).value)
    {
      GroupIsMigrated(fields, groups[i]);
      assert forall name :: name in groups[i] <==> exists j :: 0 <= j < |groups[i]| && groups[i][j] == name;
    }
    var r := MigrateAll(fields, groups);
    if r.Some? && forall p <- paths :: ValidPath(p) {
      WellFormedEach(r.value);
      forall i | 0 <= i < |groups|
        ensures WellFormed([r.value[i]]) <==>
                groups[i] != [] && forall a, b :: 0 <= a < b < |groups[i]| ==> groups[i][a] != groups[i][b]
      {
        WellFormedGroup(paths, groups[i], r.value[i]);
      }
      EveryGroup(groups, r.value);
    }
  }

  lemma EveryGroup(groups: seq<seq<string>>, r: Groups)
    requires |r| == |groups|
    requires forall i :: 0 <= i < |groups| ==>
               (WellFormed([r[i]]) <==>
                groups[i] != [] && forall a, b :: 0 <= a < b < |groups[i]| ==> groups[i][a] != groups[i][b])
    ensures (forall g <- r :: WellFormed([g]))
            <==> forall g <- groups :: g != [] && forall a, b :: 0 <= a < b < |g| ==> g[a] != g[b]
  {
    hide WellFormed;
    if forall g <- r :: WellFormed([g]) {
      forall g | g in groups ensures g != [] && forall a, b :: 0 <= a < b < |g| ==> g[a] != g[b] {
        var i :| 0 <= i < |groups| && groups[i] == g;
        assert r[i] in r;
      }
    } else {
      var g :| g in r && !WellFormed([g]);
      var i :| 0 <= i < |r| && r[i] == g;
      assert groups[i] in groups;
    }
  }

  /**
   A migrated requirement is satisfied exactly when in each group some present path is a component prefix of the path
   that one of its names stands for.
   */
  lemma MigratedIsSatisfied(groups: seq<seq<string>>, schema: Schema, present: seq<Path>)
    requires Convertible(Flatten(schema.fields, []), groups) && forall p <- present :: ValidPath(p)
    ensures LegacyGroups(groups, schema).Some?
    ensures IsSatisfiedBy(LegacyGroups(groups, schema).value, present) == Some(true)
            <==> forall names <- groups :: MeetsByName(Flatten(schema.fields, []), names, present)
  {
    hide Flatten, ValidPath, IsSatisfiedBy, Convertible, OnlyPath, LegacyGroups, GroupStandsFor;
    LegacyGroupsAre(groups, schema);
    var r, paths := LegacyGroups(groups, schema).value, Flatten(schema.fields, []);
    SatisfiedMeansPrefix(r, present);
    forall i | 0 <= i < |groups|
      ensures Meets(r[i], present) <==> MeetsByName(paths, groups[i], present)
    {
      GroupSatisfied(paths, groups[i], r[i], present);
    }
    hide Meets, MeetsByName;
    Elementwise(r, groups, paths, present);
  }

  /** Some present path is a component prefix of some member. */
  ghost predicate Meets(group: seq<Path>, present: seq<Path>) {
    exists required, p :: required in group && p in present && p <= required
  }

  /** Some present path is a component prefix of the path some name stands for. */
  ghost predicate MeetsByName(paths: seq<Path>, names: seq<string>, present: seq<Path>) {
    exists name, path, p :: name in names && OnlyPath(paths, name, path) && p in present && p <= path
  }

  lemma Elementwise(r: Groups, groups: seq<seq<string>>, paths: seq<Path>, present: seq<Path>)
    requires |r| == |groups|
    requires forall i :: 0 <= i < |groups| ==> (Meets(r[i], present) <==> MeetsByName(paths, groups[i], present))
    ensures (forall g <- r :: Meets(g, present)) <==> forall names <- groups :: MeetsByName(paths, names, present)
  {
    hide Meets, MeetsByName;
    if forall g <- r :: Meets(g, present) {
      forall names | names in groups ensures MeetsByName(paths, names, present) {
        var i :| 0 <= i < |groups| && groups[i] == names;
        assert r[i] in r;
      }
    } else {
      var g :| g in r && !Meets(g, present);
      var i :| 0 <= i < |r| && r[i] == g;
      assert groups[i] in groups;
    }
  }

  lemma GroupSatisfied(paths: seq<Path>, names: seq<string>, r: seq<Path>, present: seq<Path>)
    requires GroupStandsFor(paths, names, r)
    ensures Meets(r, present) <==> MeetsByName(paths, names, present)
  {
    hide OnlyPath;
    if required, p :| required in r && p in present && p <= required {
      var j :| 0 <= j < |r| && r[j] == required;
      assert names[j] in names && OnlyPath(paths, names[j], required);
    }
    if name, path, p :| name in names && OnlyPath(paths, name, path) && p in present && p <= path {
      var j :| 0 <= j < |names| && names[j] == name;
      OnePathPerName(paths, names[j], r[j], name, path);
      assert r[j] in r && p <= r[j];
    }
  }

  // ---- Which paths resolve ---------------------------------------------------------------------

  /** How many fields a path names, over all ways down. */
  function Occurrences(fields: seq<Field>, q: Path): nat
    decreases |q|, |fields|
  {
    if fields == [] || q == [] then 0
    else
      var f := fields[|fields| - 1];
      Occurrences(fields[..|fields| - 1], q)
      + if f.name != q[0] then 0
        else if |q| == 1 then 1
        else if f.dtype.Struct? then Occurrences(f.dtype.fields, q[1..]) else 0
  }

  lemma CountsAdd(a: seq<Path>, x: Path, b: seq<Path>, y: Path)
    ensures multiset(a + [x] + b)[y] == multiset(a)[y] + (if x == y then 1 else 0) + multiset(b)[y]
  {
    assert multiset(a + [x] + b) == multiset(a) + multiset([x]) + multiset(b);
  }

  lemma SamePath(prefix: Path, name: string, q: Path)
    ensures prefix + [name] == prefix + q <==> q == [name]
  {
    assert (prefix + q)[|prefix|..] == q && (prefix + [name])[|prefix|..] == [name];
  }

  lemma FlattenStep(fields: seq<Field>, prefix: Path)
    requires fields != []
    ensures var init, f := fields[..|fields| - 1], fields[|fields| - 1];
            Flatten(fields, prefix) == Flatten(init, prefix) + [prefix + [f.name]]
                                       + if f.dtype.Struct? then Flatten(f.dtype.fields, prefix + [f.name]) else []
  {
  }

  lemma OccurrencesStep(fields: seq<Field>, q: Path)
    requires fields != [] && q != []
    ensures var init, f := fields[..|fields| - 1], fields[|fields| - 1];
            Occurrences(fields, q) == Occurrences(init, q)
                                      + if f.name != q[0] then 0
                                        else if |q| == 1 then 1
                                        else if f.dtype.Struct? then Occurrences(f.dtype.fields, q[1..]) else 0
  {
  }

  lemma CountsStep(fields: seq<Field>, prefix: Path, q: Path)
    requires fields != [] && q != []
    requires multiset(Flatten(fields[..|fields| - 1], prefix))[prefix + q] == Occurrences(fields[..|fields| - 1], q)
    requires var f := fields[|fields| - 1];
             f.dtype.Struct? ==> multiset(Flatten(f.dtype.fields, prefix + [f.name]))[prefix + q]
                                 == if |q| > 1 && q[0] == f.name then Occurrences(f.dtype.fields, q[1..]) else 0
    ensures multiset(Flatten(fields, prefix))[prefix + q] == Occurrences(fields, q)
  {
    hide Flatten, Occurrences;
    var init, f := fields[..|fields| - 1], fields[|fields| - 1];
    var path := prefix + [f.name];
    FlattenStep(fields, prefix);
    OccurrencesStep(fields, q);
    CountsAdd(Flatten(init, prefix), path, if f.dtype.Struct? then Flatten(f.dtype.fields, path) else [], prefix + q);
    SamePath(prefix, f.name, q);
  }

  lemma PathBelow(prefix: Path, q: Path)
    requires q != []
    ensures prefix + [q[0]] + q[1..] == prefix + q
  {
  }

  lemma NothingToCount(prefix: Path, q: Path)
    ensures multiset(Flatten([], prefix))[prefix + q] == 0 && Occurrences([], q) == 0
  {
  }

  lemma {:induction false} FlattenCounts(fields: seq<Field>, prefix: Path, q: Path)
    requires q != []
    ensures multiset(Flatten(fields, prefix))[prefix + q] == Occurrences(fields, q)
    decreases fields
  {
    hide Flatten, Occurrences;
    if fields == [] {
      NothingToCount(prefix, q);
    } else {
      var f := fields[|fields| - 1];
      FlattenCounts(fields[..|fields| - 1], prefix, q);
      if f.dtype.Struct? {
        if |q| > 1 && q[0] == f.name {
          FlattenCounts(f.dtype.fields, prefix + [f.name], q[1..]);
          PathBelow(prefix, q);
        } else {
          NotBelow(f.dtype.fields, prefix, f.name, q);
        }
      }
      CountsStep(fields, prefix, q);
    }
  }

  lemma {:induction false} FlattenExtends(fields: seq<Field>, prefix: Path, p: Path)
    requires p in Flatten(fields, prefix)
    ensures prefix <= p && |p| > |prefix|
    decreases fields
  {
    var k := |fields| - 1;
    var path := prefix + [fields[k].name];
    if p in Flatten(fields[..k], prefix) {
      FlattenExtends(fields[..k], prefix, p);
    } else if p != path {
      FlattenExtends(fields[k].dtype.fields, path, p);
    }
  }

  lemma NotBelow(fields: seq<Field>, prefix: Path, name: string, q: Path)
    requires q != [] && (|q| == 1 || q[0] != name)
    ensures multiset(Flatten(fields, prefix + [name]))[prefix + q] == 0
  {
    assert (prefix + q)[|prefix|] == q[0] && (prefix + [name])[|prefix|] == name;
    if prefix + q in Flatten(fields, prefix + [name]) {
      FlattenExtends(fields, prefix + [name], prefix + q);
    }
  }

  /** Below a name that is unique among its siblings, only its own fields count. */
  lemma {:induction false} OccurrencesBelow(fields: seq<Field>, q: Path)
    requires q != []
    ensures |q| == 1 ==> Occurrences(fields, q) == |Matches(fields, q[0])|
    ensures Matches(fields, q[0]) == [] ==> Occurrences(fields, q) == 0
    ensures |q| > 1 && |Matches(fields, q[0])| == 1 ==>
              var f := fields[Matches(fields, q[0])[0]];
              Occurrences(fields, q) == if f.dtype.Struct? then Occurrences(f.dtype.fields, q[1..]) else 0
    decreases |fields|
  {
    hide Matches, Occurrences;
    if fields == [] {
      NoMatches(q);
    } else {
      OccurrencesBelow(fields[..|fields| - 1], q);
      OccurrencesStep(fields, q);
      MatchesStep(fields, q[0]);
    }
  }

  lemma NoMatches(q: Path)
    requires q != []
    ensures Matches([], q[0]) == [] && Occurrences([], q) == 0
  {
  }

  lemma MatchesStep(fields: seq<Field>, name: string)
    requires fields != []
    ensures Matches(fields, name) == Matches(fields[..|fields| - 1], name)
                                     + if fields[|fields| - 1].name == name then [|fields| - 1] else []
  {
  }

  /** A path resolves exactly when it and each path above it name one field of the flattened schema. */
  lemma {:induction false} ResolvesExactlyWhenSingle(fields: seq<Field>, p: Path)
    requires p != []
    ensures Resolve(fields, p).Some? <==> forall n :: 0 < n <= |p| ==> Occurrences(fields, p[..n]) == 1
    decreases |p|
  {
    hide Matches, Occurrences;
    assert p[..1][0] == p[0] && p[..1] == [p[0]];
    OccurrencesBelow(fields, p[..1]);
    if |p| > 1 && Find(fields, p[0]).Some? {
      var f := fields[Find(fields, p[0]).value];
      forall n | 1 < n <= |p|
        ensures Occurrences(fields, p[..n]) == if f.dtype.Struct? then Occurrences(f.dtype.fields, p[1..][..n - 1])
                else 0
      {
        assert p[..n][0] == p[0] && p[..n][1..] == p[1..][..n - 1];
        OccurrencesBelow(fields, p[..n]);
      }
      if f.dtype.Struct? {
        ResolvesExactlyWhenSingle(f.dtype.fields, p[1..]);
        assert forall n :: 0 < n <= |p| - 1 ==>
               Occurrences(f.dtype.fields, p[1..][..n]) == Occurrences(fields, p[..n + 1]);
      } else {
        assert Occurrences(fields, p[..|p|]) == 0;
      }
    }
  }

  // ---- When all paths resolve ------------------------------------------------------------------

  /** A path that names some field, whether or not it does so unambiguously. */
  predicate InTree(fields: seq<Field>, q: Path) { Occurrences(fields, q) > 0 }

  predicate DistinctNames(fields: seq<Field>) {
    forall i, j :: 0 <= i < j < |fields| ==> fields[i].name != fields[j].name
  }

  predicate UniqueSiblings(fields: seq<Field>) {
    && DistinctNames(fields)
    && forall i | 0 <= i < |fields| :: fields[i].dtype.Struct? ==> UniqueSiblings(fields[i].dtype.fields)
  }

  lemma FlattenIsTree(fields: seq<Field>, q: Path)
    requires q != []
    ensures q in Flatten(fields, []) <==> InTree(fields, q)
  {
    hide Flatten, Occurrences;
    FlattenCounts(fields, [], q);
    assert [] + q == q;
  }

  lemma ResolvedIsInTree(fields: seq<Field>, q: Path)
    requires q != [] && Resolve(fields, q).Some?
    ensures InTree(fields, q)
  {
    hide Resolve, Occurrences;
    ResolvesExactlyWhenSingle(fields, q);
    assert q[..|q|] == q;
  }

  /** What a path names, below a name that has no double among its siblings. */
  lemma TreeBelow(fields: seq<Field>, q: Path, i: nat)
    requires q != [] && UniqueAt(fields, q[0], i)
    ensures InTree(fields, q) <==> |q| == 1 || (fields[i].dtype.Struct? && InTree(fields[i].dtype.fields, q[1..]))
  {
    hide Matches, Occurrences;
    OccurrencesBelow(fields, q);
    FindSpec(fields, q[0]);
  }

  lemma NamedSomewhere(fields: seq<Field>, q: Path)
    requires q != []
    ensures InTree(fields, q) ==> exists i: nat :: i < |fields| && fields[i].name == q[0]
    ensures |q| == 1 && (exists i: nat :: i < |fields| && fields[i].name == q[0]) ==> InTree(fields, q)
  {
    hide Occurrences;
    OccurrencesBelow(fields, q);
    var m := Matches(fields, q[0]);
    assert m != [] ==> m[0] < |fields| && fields[m[0]].name == q[0];
    hide Matches;
  }

  /** In a schema with unique sibling names, what names a field resolves. */
  lemma {:induction false} UniqueTreeResolves(fields: seq<Field>, q: Path)
    requires q != [] && UniqueSiblings(fields) && InTree(fields, q)
    ensures Resolve(fields, q).Some?
    decreases |q|
  {
    hide Resolve, InTree;
    NamedSomewhere(fields, q);
    var i: nat :| i < |fields| && fields[i].name == q[0];
    assert UniqueAt(fields, q[0], i);
    TreeBelow(fields, q, i);
    ResolveBelow(fields, q, i);
    if |q| > 1 {
      UniqueTreeResolves(fields[i].dtype.fields, q[1..]);
    }
  }

  /** A path that names a field but does not resolve, when sibling names repeat somewhere. */
  lemma {:induction false} RepeatedSiblings(fields: seq<Field>) returns (q: Path)
    requires !UniqueSiblings(fields)
    ensures q != [] && InTree(fields, q) && Resolve(fields, q) == None
    decreases fields
  {
    hide Resolve, InTree;
    if !DistinctNames(fields) {
      var i, j :| 0 <= i < j < |fields| && fields[i].name == fields[j].name;
      q := [fields[i].name];
      NamedSomewhere(fields, q);
      FoundIsUnique(fields, q[0], i, j);
      ResolveMissing(fields, q);
    } else {
      var i :| 0 <= i < |fields| && fields[i].dtype.Struct? && !UniqueSiblings(fields[i].dtype.fields);
      var below := RepeatedSiblings(fields[i].dtype.fields);
      q := [fields[i].name] + below;
      assert q[1..] == below;
      assert UniqueAt(fields, q[0], i);
      TreeBelow(fields, q, i);
      ResolveBelow(fields, q, i);
    }
  }

  lemma FoundIsUnique(fields: seq<Field>, name: string, i: nat, j: nat)
    requires i < j < |fields| && fields[i].name == name == fields[j].name
    ensures Find(fields, name) == None
  {
    hide Find, Matches;
    FindSpec(fields, name);
    var r := Find(fields, name);
    assert r.Some? ==> UniqueAt(fields, name, r.value);
  }

  /** All fields of a schema can be reached by path exactly when sibling names are unique throughout. */
  lemma AllPathsResolveExactlyWhenUnique(fields: seq<Field>)
    ensures UniqueSiblings(fields) <==> forall p <- Flatten(fields, []) :: p != [] && Resolve(fields, p).Some?
  {
    hide Resolve, UniqueSiblings, InTree;
    if UniqueSiblings(fields) {
      forall p | p in Flatten(fields, [])
        ensures p != [] && Resolve(fields, p).Some?
      {
        FlattenExtends(fields, [], p);
        FlattenIsTree(fields, p);
        UniqueTreeResolves(fields, p);
      }
    } else {
      var q := RepeatedSiblings(fields);
      FlattenIsTree(fields, q);
    }
  }

  // ---- What an accepted name stands for --------------------------------------------------------

  lemma {:induction false} SpelledMembers(paths: seq<Path>, name: string, p: Path)
    ensures p in Spelled(paths, name) <==> p in paths && Join(p) == name
  {
    if paths != [] {
      SpelledMembers(paths[..|paths| - 1], name, p);
    }
  }

  lemma {:induction false} SpelledKeepsCount(paths: seq<Path>, name: string, p: Path)
    requires Join(p) == name
    ensures multiset(Spelled(paths, name))[p] == multiset(paths)[p]
  {
    hide Join;
    if paths != [] {
      SpelledKeepsCount(paths[..|paths| - 1], name, p);
      assert paths == paths[..|paths| - 1] + [paths[|paths| - 1]];
    }
  }

  /** How often a path is listed when the schema is flattened. */
  function Listed(fields: seq<Field>, p: Path): nat { multiset(Flatten(fields, []))[p] }

  /**
   In any schema an accepted dotted name stands for the only path that joins to it, and that path resolves
   exactly when the flattened schema lists each path above it once.
   */
  lemma LegacyNameResolvesExactly(schema: Schema, name: string, p: Path)
    requires Migrate(schema.fields, name) == Some(p)
    ensures Join(p) == name && p != []
    ensures forall q :: q != [] && Join(q) == name && Resolve(schema.fields, q).Some? ==> q == p
    ensures Resolve(schema.fields, p).Some? <==> forall n :: 0 < n < |p| ==> Listed(schema.fields, p[..n]) == 1
  {
    hide Resolve, InTree, Join, Occurrences, Flatten, Spelled, Listed;
    var fields, paths := schema.fields, Flatten(schema.fields, []);
    SpelledMembers(paths, name, p);
    FlattenExtends(fields, [], p);
    forall q | q != [] && Join(q) == name && Resolve(fields, q).Some?
      ensures q == p
    {
      ResolvedIsInTree(fields, q);
      FlattenIsTree(fields, q);
      SpelledMembers(paths, name, q);
    }
    SpelledKeepsCount(paths, name, p);
    assert Spelled(paths, name) == [p];
    forall n | 0 < n <= |p| ensures Listed(fields, p[..n]) == Occurrences(fields, p[..n]) {
      ListedIsCounted(fields, p[..n]);
    }
    assert p[..|p|] == p;
    assert Listed(fields, p) == multiset(paths)[p] == 1 by {
      ListedIs(fields, p);
    }
    ResolvesExactlyWhenSingle(fields, p);
  }

  lemma ListedIs(fields: seq<Field>, p: Path)
    ensures Listed(fields, p) == multiset(Flatten(fields, []))[p]
  {
    hide Flatten;
  }

  lemma ListedIsCounted(fields: seq<Field>, p: Path)
    requires p != []
    ensures Listed(fields, p) == Occurrences(fields, p)
  {
    hide Flatten, Occurrences;
    FlattenCounts(fields, [], p);
    assert [] + p == p;
  }

  /** In particular it resolves when sibling names are unique. */
  lemma LegacyNameIsSound(schema: Schema, name: string, p: Path)
    requires UniqueSiblings(schema.fields) && Migrate(schema.fields, name) == Some(p)
    ensures Join(p) == name && p != [] && Resolve(schema.fields, p).Some?
    ensures forall q :: q != [] && Join(q) == name && Resolve(schema.fields, q).Some? ==> q == p
  {
    hide Resolve, UniqueSiblings, InTree, Join, Listed;
    SpelledMembers(Flatten(schema.fields, []), name, p);
    AllPathsResolveExactlyWhenUnique(schema.fields);
    LegacyNameResolvesExactly(schema, name, p);
  }

  /** With a repeated sibling, a name can be accepted although its path does not resolve. */
  lemma RepeatedSiblingBreaksLegacy()
    ensures var b := Field("b", Utf8, true, map[]);
            var fields := [Field("a", Struct([b]), true, map[]), Field("a", Utf8, true, map[])];
            && Migrate(fields, "a.b") == Some(["a", "b"])
            && Listed(fields, ["a"]) == 2
            && Resolve(fields, ["a", "b"]) == None
  {
    hide Flatten, Spelled, Resolve;
    var b := Field("b", Utf8, true, map[]);
    var first, second := Field("a", Struct([b]), true, map[]), Field("a", Utf8, true, map[]);
    FlattenExample(b, first, second);
    SpellExample();
    var ps: seq<Path> := [["a"], ["a", "b"], ["a"]];
    assert multiset(ps)[["a"]] == 2;
    var fields := [first, second];
    FoundIsUnique(fields, "a", 0, 1);
    ResolveMissing(fields, ["a", "b"]);
  }

  lemma ResolveMissing(fields: seq<Field>, p: Path)
    requires p != [] && Find(fields, p[0]).None?
    ensures Resolve(fields, p) == None
  {
    hide Find;
  }

  lemma FlattenExample(b: Field, first: Field, second: Field)
    requires first.name == second.name == "a" && b.name == "b" && !b.dtype.Struct? && !second.dtype.Struct?
    requires first.dtype == Struct([b])
    ensures Flatten([first, second], []) == [["a"], ["a", "b"], ["a"]]
  {
    var fields := [first, second];
    assert fields[..1] == [first] && [first][..0] == [] && [b][..0] == [];
    var none: Path := [];
    assert none + ["a"] == ["a"] && ["a"] + ["b"] == ["a", "b"];
    assert Flatten([b], ["a"]) == [["a", "b"]];
    assert Flatten([first], []) == [["a"], ["a", "b"]];
  }

  lemma SpellExample()
    ensures Spelled([["a"], ["a", "b"], ["a"]], "a.b") == [["a", "b"]]
  {
    var ps: seq<Path> := [["a"], ["a", "b"], ["a"]];
    assert ps[..2] == [["a"], ["a", "b"]] && ps[..2][..1] == [["a"]] && ps[..2][..1][..0] == [];
    assert ["a", "b"][1..] == ["b"];
    assert Join(["a"]) == "a" && Join(["a", "b"]) == "a" + "." + "b" == "a.b";
    assert |Join(["a"])| != |"a.b"|;
    assert Spelled(ps[..2][..1], "a.b") == [];
    assert Spelled(ps[..2], "a.b") == [["a", "b"]];
  }
}
