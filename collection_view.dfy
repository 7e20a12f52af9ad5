/** The collection list (components/collection/collection-view.tsx): the
    schema guard, the table's columns, its initial sort, the list edits
    applied after a delete, a rename or a new folder, the split into files
    and folders, and when an entry may be edited.

    The schema helpers (`getFieldByPath`, `getPrimaryField`) and the file
    helpers (`getParentPath`, `getFileName`, `normalizePath`, `sortFiles`)
    are not part of this model: they are parameters, and the lemmas that
    need `sortFiles` to reorder without adding or losing entries say so. */
module CollectionView {
  import opened Common
  import opened Json

  // ---------------------------------------------------------------------
  // Schema guard

  datatype Guarded = Ready(schema: Json) | Fail(message: string)

  /** The three errors thrown before anything renders. */
  function CheckSchema(hasConfig: bool, schema: Json, name: string): (r: Guarded)
    ensures r.Ready? <==> hasConfig && Truthy(schema) && Get(schema, "type") == Some(JStr("collection"))
    ensures r.Ready? ==> r.schema == schema
    ensures !hasConfig ==> r == Fail("Configuration not found.")
    ensures hasConfig && !Truthy(schema) ==> r == Fail("Schema not found for \"" + name + "\".")
    ensures hasConfig && Truthy(schema) && !r.Ready? ==> r == Fail("\"" + name + "\" is not a collection.")
  {
    if !hasConfig then Fail("Configuration not found.")
    else if !Truthy(schema) then Fail("Schema not found for \"" + name + "\".")
    else if Get(schema, "type") != Some(JStr("collection")) then Fail("\"" + name + "\" is not a collection.")
    else Ready(schema)
  }

  // ---------------------------------------------------------------------
  // Columns

  /** A table column: the value path it reads and the field it shows. */
  datatype Column = Column(path: Option<Json>, field: Json)

  /** `getFieldByPath(schema.fields, path)`, not part of this model. */
  type FieldByPath = (Json, Json) -> Option<Json>

  const NameField := JObj(map["label" := JStr("Name"), "name" := JStr("name"), "type" := JStr("string")])
  const DateField := JObj(map["label" := JStr("Date"), "name" := JStr("date"), "type" := JStr("date")])
  const DatedFilenamePrefix := "{year}-{month}-{day}"

  /** Object fields have no column of their own. */
  predicate IsObjectField(field: Json) {
    Get(field, "type") == Some(JStr("object"))
  }

  /** `field && field.type !== "object"` for a path listed in the view. */
  predicate Kept(fields: Json, path: Json, fieldByPath: FieldByPath) {
    var field := fieldByPath(fields, path);
    TruthyOpt(field) && !IsObjectField(field.value)
  }

  /** The column one listed path contributes, if any. */
  function ColumnFor(fields: Json, path: Json, fieldByPath: FieldByPath): seq<Column> {
    if Kept(fields, path, fieldByPath) then [Column(Some(path), fieldByPath(fields, path).value)] else []
  }

  /** The columns for the paths `view.fields` lists, in the listed order. */
  function ListedColumns(paths: seq<Json>, fields: Json, fieldByPath: FieldByPath): (r: seq<Column>)
    ensures |r| <= |paths|
    ensures forall i :: 0 <= i < |r| ==>
      r[i].path.Some? && r[i].path.value in paths && Kept(fields, r[i].path.value, fieldByPath)
      && fieldByPath(fields, r[i].path.value) == Some(r[i].field)
    ensures forall p :: p in paths && Kept(fields, p, fieldByPath) ==> exists i :: 0 <= i < |r| && r[i].path == Some(p)
    decreases |paths|
  {
    if paths == [] then []
    else
      var front := paths[..|paths| - 1];
      var last := paths[|paths| - 1];
      var before := ListedColumns(front, fields, fieldByPath);
      var here := ColumnFor(fields, last, fieldByPath);
      var r := before + here;
      forall p | p in paths && Kept(fields, p, fieldByPath)
        ensures exists i :: 0 <= i < |r| && r[i].path == Some(p)
      {
        if p in front {
          var i :| 0 <= i < |before| && before[i].path == Some(p);
          assert r[i] == before[i];
        } else {
          assert p == last;
          assert r[|before|].path == Some(p);
        }
      }
      r
  }

  /** Listing more paths adds their columns after the others. */
  lemma {:induction false} ListedColumnsAppend(a: seq<Json>, b: seq<Json>, fields: Json, fieldByPath: FieldByPath)
    ensures ListedColumns(a + b, fields, fieldByPath) == ListedColumns(a, fields, fieldByPath) + ListedColumns(b, fields, fieldByPath)
    decreases |b|
  {
    if b == [] {
      assert a + b == a;
    } else {
      var front, last := b[..|b| - 1], b[|b| - 1];
      assert (a + b)[..|a + b| - 1] == a + front;
      assert (a + b)[|a + b| - 1] == last;
      calc {
        ListedColumns(a + b, fields, fieldByPath);
        ListedColumns(a + front, fields, fieldByPath) + ColumnFor(fields, last, fieldByPath);
        { ListedColumnsAppend(a, front, fields, fieldByPath); }
        ListedColumns(a, fields, fieldByPath) + ListedColumns(front, fields, fieldByPath) + ColumnFor(fields, last, fieldByPath);
        ListedColumns(a, fields, fieldByPath) + ListedColumns(b, fields, fieldByPath);
      }
    }
  }

  /** The `forEach` that pushes one column per listed path. */
  method CollectListedColumns(paths: seq<Json>, fields: Json, fieldByPath: FieldByPath) returns (columns: seq<Column>)
    ensures columns == ListedColumns(paths, fields, fieldByPath)
  {
    columns := [];
    for i := 0 to |paths|
      invariant columns == ListedColumns(paths[..i], fields, fieldByPath)
    {
      assert paths[..i + 1][..i] == paths[..i];
      var field := fieldByPath(fields, paths[i]);
      if TruthyOpt(field) && !IsObjectField(field.value) {
        columns := columns + [Column(Some(paths[i]), field.value)];
      }
    }
    assert paths[..|paths|] == paths;
  }

  /** The column of one field: none for an object field, otherwise one
      whose path is the field's name. */
  function FieldColumn(f: Json): seq<Column> {
    if IsObjectField(f) then [] else [Column(Get(f, "name"), f)]
  }

  /** `fields.filter(field => field?.type !== 'object').map(...)`: `null`
      passes the filter and then throws on `field.name`. */
  function AllFieldColumns(fields: seq<Json>): (r: Outcome<seq<Column>>)
    ensures r.Done? <==> forall i :: 0 <= i < |fields| ==> !fields[i].JNull?
    ensures r.Done? ==> forall i :: 0 <= i < |r.value| ==> !IsObjectField(r.value[i].field)
    decreases |fields|
  {
    if fields == [] then Done([])
    else if fields[0].JNull? then Throws
    else
      var tail :- AllFieldColumns(fields[1..]);
      assert forall i :: 1 <= i < |fields| ==> fields[i] == fields[1..][i - 1];
      Done(FieldColumn(fields[0]) + tail)
  }

  /** Every column comes from a field and reads the field's name, and
      every field that is not an object field has a column. */
  lemma {:induction false} AllFieldColumnsMeaning(fields: seq<Json>)
    ensures var r := AllFieldColumns(fields);
      r.Done? ==>
        |r.value| <= |fields|
        && (forall i :: 0 <= i < |r.value| ==> r.value[i].field in fields && r.value[i].path == Get(r.value[i].field, "name"))
        && (forall f :: f in fields && !IsObjectField(f) ==> exists i :: 0 <= i < |r.value| && r.value[i].field == f)
    decreases |fields|
  {
    var r := AllFieldColumns(fields);
    if fields != [] && r.Done? {
      AllFieldColumnsMeaning(fields[1..]);
      var f := fields[0];
      var tail := AllFieldColumns(fields[1..]).value;
      var head := FieldColumn(f);
      assert r.value == head + tail;
      forall i | 0 <= i < |r.value|
        ensures r.value[i].field in fields && r.value[i].path == Get(r.value[i].field, "name")
      {
        if i >= |head| {
          assert r.value[i] == tail[i - |head|];
          assert tail[i - |head|].field in fields[1..];
        }
      }
      forall g | g in fields && !IsObjectField(g)
        ensures exists i :: 0 <= i < |r.value| && r.value[i].field == g
      {
        if g == f {
          assert r.value[0].field == g;
        } else {
          assert g in fields[1..];
          var i :| 0 <= i < |tail| && tail[i].field == g;
          assert r.value[|head| + i] == tail[i];
        }
      }
    }
  }

  /** One step of the filter and map: the first field's column, if any,
      comes before the rest's, and `null` throws. */
  lemma AllFieldColumnsCons(f: Json, rest: seq<Json>)
    ensures AllFieldColumns([f] + rest) ==
      if f.JNull? || AllFieldColumns(rest).Throws? then Throws
      else Done(FieldColumn(f) + AllFieldColumns(rest).value)
  {
    assert ([f] + rest)[0] == f;
    assert ([f] + rest)[1..] == rest;
  }

  /** Both parts' columns, one after the other, or `Throws` if either
      part throws. */
  function JoinColumns(x: Outcome<seq<Column>>, y: Outcome<seq<Column>>): Outcome<seq<Column>> {
    if x.Done? && y.Done? then Done(x.value + y.value) else Throws
  }

  /** The columns keep the order of the fields: the columns of a
      concatenation are the columns of each part, one after the other. */
  lemma {:induction false} AllFieldColumnsAppend(a: seq<Json>, b: seq<Json>)
    ensures AllFieldColumns(a + b) == JoinColumns(AllFieldColumns(a), AllFieldColumns(b))
    decreases |a|
  {
    if a == [] {
      assert a + b == b;
      assert AllFieldColumns(a) == Done([]);
      if AllFieldColumns(b).Done? {
        assert [] + AllFieldColumns(b).value == AllFieldColumns(b).value;
      }
    } else {
      var f, rest := a[0], a[1..];
      AllFieldColumnsAppend(rest, b);
      assert a == [f] + rest;
      ConcatAssoc([f], rest, b);
      AllFieldColumnsCons(f, rest);
      AllFieldColumnsCons(f, rest + b);
      var r, t := AllFieldColumns(rest), AllFieldColumns(b);
      if !f.JNull? && r.Done? && t.Done? {
        ConcatAssoc(FieldColumn(f), r.value, t.value);
      }
    }
  }

  /** `schema.view?.fields && schema.view?.fields.length > 0`, and whether
      the value so chosen then has a `forEach`. */
  predicate HasViewList(v: Option<Json>) {
    v.Some? &&
    match v.value
    case JArr(items) => |items| > 0
    case JStr(s) => |s| > 0
    case JObj(f) => "length" in f && f["length"].JNum? && f["length"].n > 0
    case _ => false
  }

  function OptGet(o: Option<Json>, key: string): Option<Json> {
    if o.Some? then Get(o.value, key) else None
  }

  /** `viewFields`: the listed columns when the view lists any; otherwise
      one column per non-object field; and for a schema without fields a
      "name" column, with a "date" column when file names start with the
      date. */
  function ViewColumns(schema: Json, fieldByPath: FieldByPath): (r: Outcome<seq<Column>>)
    ensures r.Done? ==> forall i :: 0 <= i < |r.value| ==> !IsObjectField(r.value[i].field)
  {
    var fields := Get(schema, "fields");
    if TruthyOpt(fields) then
      var listed := OptGet(Get(schema, "view"), "fields");
      if HasViewList(listed) then
        if listed.value.JArr? then
          var columns := ListedColumns(listed.value.items, fields.value, fieldByPath);
          Done(columns)
        else Throws
      else if fields.value.JArr? then AllFieldColumns(fields.value.items)
      else Throws
    else
      var filename := Get(schema, "filename");
      if filename.Some? && filename.value.JStr? then
        var dated := StartsWith(filename.value.s, DatedFilenamePrefix);
        Done([Column(Some(JStr("name")), NameField)] + if dated then [Column(Some(JStr("date")), DateField)] else [])
      else Throws
  }

  /** A schema without fields shows a name column, and a date column
      exactly when its file names start with the date. */
  lemma DefaultColumns(schema: Json, fieldByPath: FieldByPath, filename: string)
    requires !TruthyOpt(Get(schema, "fields")) && Get(schema, "filename") == Some(JStr(filename))
    ensures var r := ViewColumns(schema, fieldByPath);
      r.Done? && r.value[0] == Column(Some(JStr("name")), NameField)
      && (|r.value| == 2 <==> StartsWith(filename, DatedFilenamePrefix))
      && (|r.value| == 2 ==> r.value[1] == Column(Some(JStr("date")), DateField))
  {
  }

  /** With a non-empty view list the columns follow it, skipping missing
      and object fields. */
  lemma ListedViewColumns(schema: Json, fieldByPath: FieldByPath, paths: seq<Json>)
    requires TruthyOpt(Get(schema, "fields"))
    requires OptGet(Get(schema, "view"), "fields") == Some(JArr(paths)) && |paths| > 0
    ensures ViewColumns(schema, fieldByPath) == Done(ListedColumns(paths, Get(schema, "fields").value, fieldByPath))
  {
    assert HasViewList(OptGet(Get(schema, "view"), "fields"));
  }

  /** Without a non-empty view list, every field that is not an object
      field gets a column whose path is its name. */
  lemma AllFieldsWithoutViewList(schema: Json, fieldByPath: FieldByPath)
    requires TruthyOpt(Get(schema, "fields")) && Get(schema, "fields").value.JArr?
    requires !HasViewList(OptGet(Get(schema, "view"), "fields"))
    ensures ViewColumns(schema, fieldByPath) == AllFieldColumns(Get(schema, "fields").value.items)
  {
  }

  // ---------------------------------------------------------------------
  // Initial table state

  datatype TableState = TableState(sortId: Json, desc: bool, pageSize: nat)

  /** `getPrimaryField(schema) ?? "name"`. */
  function PrimaryField(primary: Option<Json>): (r: Json)
    ensures !Nullish(primary) ==> r == primary.value
    ensures Nullish(primary) ==> r == JStr("name")
  {
    if Nullish(primary) then JStr("name") else primary.value
  }

  predicate HasDateColumn(columns: seq<Column>) {
    exists i :: 0 <= i < |columns| && Get(columns[i].field, "name") == Some(JStr("date"))
  }

  /** `initialState`: sort by the view's default, else by a date column,
      else by the primary field; descending for the date or when the view
      asks for it; 25 rows a page. (`viewFields` is never `null`, so the
      source's "name" fallback for that case cannot be taken.) */
  function InitialState(schema: Json, columns: seq<Column>, primaryField: Json): (r: TableState)
    ensures r.pageSize == 25
    ensures r.desc <==> r.sortId == JStr("date") || OptGet(OptGet(Get(schema, "view"), "default"), "order") == Some(JStr("desc"))
  {
    var defaults := OptGet(Get(schema, "view"), "default");
    var sort := OptGet(defaults, "sort");
    var sortId := if TruthyOpt(sort) then sort.value
      else if HasDateColumn(columns) then JStr("date")
      else primaryField;
    var desc := if sortId == JStr("date") then true
      else if OptGet(defaults, "order") == Some(JStr("desc")) then true
      else false;
    TableState(sortId, desc, 25)
  }

  /** The view's own default sort wins over everything else. */
  lemma ExplicitSortWins(schema: Json, columns: seq<Column>, primaryField: Json)
    requires TruthyOpt(OptGet(OptGet(Get(schema, "view"), "default"), "sort"))
    ensures InitialState(schema, columns, primaryField).sortId == OptGet(OptGet(Get(schema, "view"), "default"), "sort").value
  {
  }

  /** A dated collection without fields or a default sort lists newest first. */
  lemma DatedCollectionsNewestFirst(schema: Json, fieldByPath: FieldByPath, filename: string, primaryField: Json)
    requires !TruthyOpt(Get(schema, "fields")) && Get(schema, "filename") == Some(JStr(filename))
    requires StartsWith(filename, DatedFilenamePrefix)
    requires !TruthyOpt(OptGet(OptGet(Get(schema, "view"), "default"), "sort"))
    ensures var columns := ViewColumns(schema, fieldByPath);
      columns.Done? && InitialState(schema, columns.value, primaryField) == TableState(JStr("date"), true, 25)
  {
    var columns := ViewColumns(schema, fieldByPath).value;
    assert Get(columns[1].field, "name") == Some(JStr("date"));
  }

  /** Without a default sort, any date column makes the table list newest
      first, whatever the schema's fields are. */
  lemma DateColumnSortsNewestFirst(schema: Json, columns: seq<Column>, primaryField: Json)
    requires !TruthyOpt(OptGet(OptGet(Get(schema, "view"), "default"), "sort")) && HasDateColumn(columns)
    ensures InitialState(schema, columns, primaryField) == TableState(JStr("date"), true, 25)
  {
  }

  /** Without a default sort or a date column the primary field is the key. */
  lemma PrimaryFieldFallback(schema: Json, columns: seq<Column>, primaryField: Json)
    requires !TruthyOpt(OptGet(OptGet(Get(schema, "view"), "default"), "sort")) && !HasDateColumn(columns)
    ensures InitialState(schema, columns, primaryField).sortId == primaryField
  {
  }

  // ---------------------------------------------------------------------
  // List edits

  /** A row of the collection: its `type`, `name` and `path`, and the rest
      of the record as the route returned it. */
  datatype Entry = Entry(kind: string, name: string, path: string, rest: map<string, Json>)

  function Paths(data: seq<Entry>): set<string> {
    set e | e in data :: e.path
  }

  /** `handleDelete`: the entries at other paths, in their order. */
  function Delete(data: seq<Entry>, path: string): (r: seq<Entry>)
    ensures |r| <= |data|
    ensures forall e :: e in r <==> e in data && e.path != path
  {
    if data == [] then []
    else (if data[0].path != path then [data[0]] else []) + Delete(data[1..], path)
  }

  /** A delete removes every copy of an entry at the path and keeps every
      copy of the others. */
  lemma {:induction false} DeleteCounts(data: seq<Entry>, path: string)
    ensures forall e :: multiset(Delete(data, path))[e] == if e.path == path then 0 else multiset(data)[e]
    decreases |data|
  {
    if data != [] {
      DeleteCounts(data[1..], path);
      assert data == [data[0]] + data[1..];
    }
  }

  /** Deleting keeps the survivors' order: the edit distributes over
      concatenation. */
  lemma {:induction false} DeleteAppend(a: seq<Entry>, b: seq<Entry>, path: string)
    ensures Delete(a + b, path) == Delete(a, path) + Delete(b, path)
    decreases |a|
  {
    if a == [] {
      assert a + b == b;
    } else {
      assert (a + b)[0] == a[0];
      assert (a + b)[1..] == a[1..] + b;
      DeleteAppend(a[1..], b, path);
    }
  }

  /** After a delete no entry has the path, every other path survives. */
  lemma DeletePaths(data: seq<Entry>, path: string)
    ensures Paths(Delete(data, path)) == Paths(data) - {path}
  {
    var r := Delete(data, path);
    forall p | p in Paths(data) - {path}
      ensures p in Paths(r)
    {
      var e :| e in data && e.path == p;
      assert e in r;
    }
  }

  /** The `map` of a rename within one folder: the entries at the old path
      take the new path and name. */
  function RenameEntries(data: seq<Entry>, path: string, newPath: string, newName: string): (r: seq<Entry>)
    ensures |r| == |data|
    ensures forall i :: 0 <= i < |data| && data[i].path != path ==> r[i] == data[i]
    ensures forall i :: 0 <= i < |data| && data[i].path == path ==>
      r[i] == data[i].(path := newPath, name := newName)
  {
    seq(|data|, i requires 0 <= i < |data| => if data[i].path == path then data[i].(path := newPath, name := newName) else data[i])
  }

  /** After a rename the old path is gone (unless it is also the new one)
      and the new one is present exactly when the old one was, or already. */
  lemma RenamedPaths(data: seq<Entry>, path: string, newPath: string, newName: string)
    ensures Paths(RenameEntries(data, path, newPath, newName))
      == (Paths(data) - {path}) + (if path in Paths(data) then {newPath} else {})
  {
    var r := RenameEntries(data, path, newPath, newName);
    forall p | p in Paths(r)
      ensures p in (Paths(data) - {path}) + (if path in Paths(data) then {newPath} else {})
    {
      var i :| 0 <= i < |r| && r[i].path == p;
      assert data[i] in data;
    }
    forall p | p in (Paths(data) - {path}) + (if path in Paths(data) then {newPath} else {})
      ensures p in Paths(r)
    {
      if p in Paths(data) && p != path {
        var i :| 0 <= i < |data| && data[i].path == p;
        assert r[i] in r;
      } else {
        var i :| 0 <= i < |data| && data[i].path == path;
        assert r[i] in r;
      }
    }
  }

  /** The file helpers, not part of this model. */
  datatype FileHelpers = FileHelpers(
    parentPath: string -> string,
    fileName: string -> string,
    normalizePath: string -> string,
    sortFiles: seq<Entry> -> seq<Entry>)

  /** `sortFiles` reorders and neither adds nor drops entries. */
  ghost predicate SortsInPlace(h: FileHelpers) {
    forall s :: multiset(h.sortFiles(s)) == multiset(s)
  }

  predicate SameFolder(h: FileHelpers, path: string, newPath: string) {
    h.parentPath(h.normalizePath(path)) == h.parentPath(h.normalizePath(newPath))
  }

  /** `handleRename`: within one folder the entry is renamed and the list
      re-sorted; a move elsewhere drops it from this list. */
  function Rename(data: seq<Entry>, path: string, newPath: string, h: FileHelpers): (r: seq<Entry>)
    ensures SameFolder(h, path, newPath) ==> r == h.sortFiles(RenameEntries(data, path, newPath, h.fileName(newPath)))
    ensures !SameFolder(h, path, newPath) ==> r == Delete(data, path)
  {
    if SameFolder(h, path, newPath) then h.sortFiles(RenameEntries(data, path, newPath, h.fileName(newPath)))
    else Delete(data, path)
  }

  /** Whatever the destination, the old path leaves the list; it reappears
      as the new path only for a rename within the folder. */
  lemma RenameMovesPath(data: seq<Entry>, path: string, newPath: string, h: FileHelpers)
    requires SortsInPlace(h) && path != newPath
    ensures var r := Rename(data, path, newPath, h);
      path !in Paths(r)
      && (SameFolder(h, path, newPath) && path in Paths(data) ==> newPath in Paths(r))
      && (!SameFolder(h, path, newPath) ==> Paths(r) == Paths(data) - {path})
  {
    var r := Rename(data, path, newPath, h);
    if SameFolder(h, path, newPath) {
      var renamed := RenameEntries(data, path, newPath, h.fileName(newPath));
      RenamedPaths(data, path, newPath, h.fileName(newPath));
      assert multiset(r) == multiset(renamed);
      assert forall e :: e in r <==> e in renamed by {
        forall e
          ensures e in r <==> e in renamed
        {
          assert e in r <==> e in multiset(r);
          assert e in renamed <==> e in multiset(renamed);
        }
      }
      assert Paths(r) == Paths(renamed);
    } else {
      DeletePaths(data, path);
    }
  }

  /** The entry `handleFolderCreate` adds for the new folder's parent. */
  function ParentEntry(entryPath: string, h: FileHelpers): (r: Entry)
    ensures r.kind == "dir" && r.path == h.parentPath(entryPath)
    ensures r.rest == map["size" := JNum(0), "url" := JNull]
  {
    var parentPath := h.parentPath(entryPath);
    Entry("dir", h.fileName(parentPath), parentPath, map["size" := JNum(0), "url" := JNull])
  }

  /** `handleFolderCreate`: the list with the parent entry, re-sorted. */
  function FolderCreate(data: seq<Entry>, entryPath: string, h: FileHelpers): seq<Entry> {
    h.sortFiles(data + [ParentEntry(entryPath, h)])
  }

  /** A new folder adds exactly one directory entry and keeps the rest. */
  lemma FolderCreateAddsParent(data: seq<Entry>, entryPath: string, h: FileHelpers)
    requires SortsInPlace(h)
    ensures multiset(FolderCreate(data, entryPath, h)) == multiset(data) + multiset{ParentEntry(entryPath, h)}
    ensures |FolderCreate(data, entryPath, h)| == |data| + 1
  {
    var r := FolderCreate(data, entryPath, h);
    assert multiset(r) == multiset(data + [ParentEntry(entryPath, h)]);
    assert |r| == |multiset(r)|;
  }

  // ---------------------------------------------------------------------
  // Files and folders

  /** `data.filter(item => item.type === kind)`. */
  function OfKind(data: seq<Entry>, kind: string): (r: seq<Entry>)
    ensures |r| <= |data|
    ensures forall e :: e in r <==> e in data && e.kind == kind
  {
    if data == [] then []
    else (if data[0].kind == kind then [data[0]] else []) + OfKind(data[1..], kind)
  }

  /** The filter keeps every copy of an entry of the kind and no other. */
  lemma {:induction false} OfKindCounts(data: seq<Entry>, kind: string)
    ensures forall e :: multiset(OfKind(data, kind))[e] == if e.kind == kind then multiset(data)[e] else 0
    decreases |data|
  {
    if data != [] {
      OfKindCounts(data[1..], kind);
      assert data == [data[0]] + data[1..];
    }
  }

  function Files(data: seq<Entry>): seq<Entry> {
    OfKind(data, "file")
  }

  function Folders(data: seq<Entry>): seq<Entry> {
    OfKind(data, "dir")
  }

  /** Files and folders share no entry, and together they are every entry
      whose type is one of the two. */
  lemma FilesAndFoldersPartition(data: seq<Entry>)
    ensures multiset(Files(data)) * multiset(Folders(data)) == multiset{}
    ensures (forall e :: e in data ==> e.kind == "file" || e.kind == "dir") ==>
      multiset(Files(data)) + multiset(Folders(data)) == multiset(data)
  {
    FilesFoldersDisjoint(data);
    if forall e :: e in data ==> e.kind == "file" || e.kind == "dir" {
      FilesFoldersCover(data);
    }
  }

  lemma FilesFoldersDisjoint(data: seq<Entry>)
    ensures multiset(Files(data)) * multiset(Folders(data)) == multiset{}
  {
    OfKindCounts(data, "file");
    OfKindCounts(data, "dir");
    var f, d := multiset(Files(data)), multiset(Folders(data));
    forall e
      ensures (f * d)[e] == 0
    {
      assert f[e] == 0 || d[e] == 0;
    }
  }

  lemma FilesFoldersCover(data: seq<Entry>)
    requires forall e :: e in data ==> e.kind == "file" || e.kind == "dir"
    ensures multiset(Files(data)) + multiset(Folders(data)) == multiset(data)
  {
    OfKindCounts(data, "file");
    OfKindCounts(data, "dir");
    var f, d := multiset(Files(data)), multiset(Folders(data));
    forall e
      ensures (f + d)[e] == multiset(data)[e]
    {
      if multiset(data)[e] > 0 {
        assert e in data;
      }
    }
  }

  // ---------------------------------------------------------------------
  // Edit gate

  /** The Edit link (and the primary column's link) is disabled unless the
      branch can be edited and the entry's content is editable;
      `isContentEditable` is not part of this model. */
  predicate EditDisabled(canEdit: bool, contentEditable: bool) {
    !canEdit || !contentEditable
  }

  /** The options menu is offered only with Edit enabled. */
  predicate OptionsShown(canEdit: bool, contentEditable: bool) {
    canEdit && contentEditable
  }

  /** The greyed-out menu stands in on an editable branch only. */
  predicate DisabledOptionsShown(canEdit: bool, contentEditable: bool) {
    canEdit && !contentEditable
  }

  /** On an editable branch exactly one of the two menus is shown, and the
      live one exactly when Edit is enabled. */
  lemma EditGateMenus(canEdit: bool, contentEditable: bool)
    ensures OptionsShown(canEdit, contentEditable) <==> !EditDisabled(canEdit, contentEditable)
    ensures canEdit ==> (OptionsShown(canEdit, contentEditable) != DisabledOptionsShown(canEdit, contentEditable))
    ensures !canEdit ==> !OptionsShown(canEdit, contentEditable) && !DisabledOptionsShown(canEdit, contentEditable)
  {
  }
}
