/**
 * `getIndexes` of the PostgreSQL metadata provider (PostgreSQLMetadataProvider.ts lines
 * 200-293). Two queries describe a table's keys and indexes. The first pass records each
 * key's constraint type and gathers each foreign key's columns. The second pass starts from
 * a copy of the foreign keys, adds each index row's column to the entry of its key (sorted by
 * position in the index), and makes an entry for every other key. The records the source keys
 * by name are insertion-ordered maps here, and `toLowerCase` is a parameter.
 */
module PgIndexes {
  import opened Wrappers
  import opened JsMaps
  import opened Sorting
  import PgMetadata

  /** A row of the key query: one column of one constraint. */
  datatype KeyRow = KeyRow(keyName: string, constraintType: Option<string>, columnName: string,
                           foreignSchemaName: Option<string>, foreignTableName: Option<string>)

  /** A row of the index query: one column of one index. */
  datatype IndexRow = IndexRow(keyName: string, nonUnique: string, indexMethod: Option<string>,
                               indexComment: Option<string>, indexPrimary: string, columnName: string,
                               seqInIndex: int, collation: Option<string>)

  datatype TableIndexColumn = TableIndexColumn(columnName: string, ordinalPosition: int,
                                               collation: Option<string>, ascOrDesc: Option<string>)

  /** `TableIndex`; `kind` is its `type` and `indexMethod` its `method`, absent fields are None. */
  datatype TableIndex = TableIndex(
    name: string, databaseName: string, schemaName: string, tableName: string, kind: string,
    unique: bool, indexMethod: Option<string>, comment: Option<string>,
    columnList: Option<seq<TableIndexColumn>>, foreignSchemaName: Option<string>,
    foreignTableName: Option<string>, foreignColumnNamelist: Option<seq<string>>)

  /** The table whose indexes are asked for. */
  datatype TableRef = TableRef(databaseName: string, schemaName: string, tableName: string)

  /** `getTableIndexColumn` (lines 507-514): both `collation` and `ascOrDesc` come from the collation column. */
  function IndexColumn(row: IndexRow): (c: TableIndexColumn)
    ensures c.columnName == row.columnName && c.ordinalPosition == row.seqInIndex
    ensures c.ascOrDesc == c.collation == row.collation
  {
    TableIndexColumn(row.columnName, row.seqInIndex, row.collation, row.collation)
  }

  /** The comparator of line 261, `a.ordinalPosition - b.ordinalPosition`, as "not after". */
  function PosLe(a: TableIndexColumn, b: TableIndexColumn): bool {
    a.ordinalPosition <= b.ordinalPosition
  }

  lemma PosLeTotal()
    ensures TotalPreorder(PosLe)
  {
  }

  // ---------------------------------------------------------------------------
  // First pass: constraint types and foreign keys (lines 215-241)
  // ---------------------------------------------------------------------------

  /** `constraintType?.toLowerCase() === 'foreign key'`. */
  predicate IsForeign(row: KeyRow, lower: string -> string) {
    row.constraintType.Some? && lower(row.constraintType.value) == "foreign key"
  }

  /** The entry the first row of a foreign key makes. */
  function ForeignIndex(t: TableRef, row: KeyRow): TableIndex {
    TableIndex(row.keyName, t.databaseName, t.schemaName, t.tableName, "FOREIGN KEY", false, None, None,
               None, row.foreignSchemaName, row.foreignTableName, Some([row.columnName]))
  }

  /** The foreign columns an entry lists so far (entries of the first pass always have them). */
  function ForeignNames(index: TableIndex): seq<string> {
    if index.foreignColumnNamelist.Some? then index.foreignColumnNamelist.value else []
  }

  /** What one key row does to `foreignMap`. */
  function KeyStep(foreignMap: JsMap<string, TableIndex>, row: KeyRow, lower: string -> string, t: TableRef)
    : JsMap<string, TableIndex>
  {
    if !IsForeign(row, lower) then foreignMap
    else match foreignMap.Get(row.keyName)
      case None => foreignMap.Set(row.keyName, ForeignIndex(t, row))
      case Some(index) =>
        foreignMap.Set(row.keyName, index.(foreignColumnNamelist := Some(ForeignNames(index) + [row.columnName])))
  }

  /** `foreignMap` after the key rows `rows`. */
  function ForeignIndexes(rows: seq<KeyRow>, lower: string -> string, t: TableRef): JsMap<string, TableIndex>
    decreases |rows|
  {
    if rows == [] then Empty()
    else KeyStep(ForeignIndexes(rows[..|rows| - 1], lower, t), rows[|rows| - 1], lower, t)
  }

  /** The (key, constraint type) pairs `constraintMap[keyName] = constraintType` stores, in row order. */
  function KeyTypes(rows: seq<KeyRow>): (kvs: seq<(string, Option<string>)>)
    ensures |kvs| == |rows| && forall i :: 0 <= i < |rows| ==> kvs[i] == (rows[i].keyName, rows[i].constraintType)
    decreases |rows|
  {
    if rows == [] then [] else KeyTypes(rows[..|rows| - 1]) + [(rows[|rows| - 1].keyName, rows[|rows| - 1].constraintType)]
  }

  /** `constraintMap[keyName]`: the constraint type stored for `k`, `undefined` (None) when there is none. */
  function ConstraintType(constraintMap: JsMap<string, Option<string>>, k: string): Option<string> {
    match constraintMap.Get(k)
    case None => None
    case Some(c) => c
  }

  /** The constraint type of the last key row named `k`, if any. */
  function LastConstraint(rows: seq<KeyRow>, k: string): Option<string> {
    match LastValue(KeyTypes(rows), k)
    case None => None
    case Some(c) => c
  }

  /** The foreign-key rows of `k`, in row order. */
  function ForeignRows(rows: seq<KeyRow>, lower: string -> string, k: string): (g: seq<KeyRow>)
    ensures forall row :: row in g <==> row in rows && IsForeign(row, lower) && row.keyName == k
    decreases |rows|
  {
    if rows == [] then []
    else
      var row := rows[|rows| - 1];
      assert rows == rows[..|rows| - 1] + [row];
      ForeignRows(rows[..|rows| - 1], lower, k) + (if IsForeign(row, lower) && row.keyName == k then [row] else [])
  }

  function ColumnNames(rows: seq<KeyRow>): (names: seq<string>)
    ensures |names| == |rows| && forall i :: 0 <= i < |rows| ==> names[i] == rows[i].columnName
    decreases |rows|
  {
    if rows == [] then [] else ColumnNames(rows[..|rows| - 1]) + [rows[|rows| - 1].columnName]
  }

  /**
   * After the first pass a key has an entry exactly when it has a foreign-key row. The entry is
   * the one its first such row made, listing the columns of all its foreign-key rows in row order.
   */
  lemma {:induction false} ForeignGrouping(rows: seq<KeyRow>, lower: string -> string, t: TableRef, k: string)
    ensures var g := ForeignRows(rows, lower, k);
            var r := ForeignIndexes(rows, lower, t).Get(k);
            && (g == [] ==> r == None)
            && (g != [] ==> r == Some(ForeignIndex(t, g[0]).(foreignColumnNamelist := Some(ColumnNames(g)))))
    decreases |rows|
  {
    if rows != [] {
      var init, row := rows[..|rows| - 1], rows[|rows| - 1];
      ForeignGrouping(init, lower, t, k);
      var m0 := ForeignIndexes(init, lower, t);
      var g0 := ForeignRows(init, lower, k);
      assert ForeignIndexes(rows, lower, t) == KeyStep(m0, row, lower, t);
      if IsForeign(row, lower) && row.keyName == k {
        var g := g0 + [row];
        assert ForeignRows(rows, lower, k) == g;
        assert g[..|g0|] == g0;
        assert ColumnNames(g) == ColumnNames(g0) + [row.columnName];
        if g0 == [] {
          assert g == [row];
          assert ColumnNames(g) == [row.columnName];
          assert ForeignIndex(t, row).(foreignColumnNamelist := Some([row.columnName])) == ForeignIndex(t, row);
        } else {
          assert g[0] == g0[0];
          var index := m0.Get(k).value;
          assert ForeignNames(index) == ColumnNames(g0);
        }
      } else {
        assert ForeignRows(rows, lower, k) == g0;
        assert KeyStep(m0, row, lower, t).Get(k) == m0.Get(k);
      }
    }
  }

  /** Each row only sets an entry, so `foreignMap` stays a well-formed map. */
  lemma {:induction false} ForeignIndexesValid(rows: seq<KeyRow>, lower: string -> string, t: TableRef)
    ensures ForeignIndexes(rows, lower, t).Valid()
    decreases |rows|
  {
    if rows != [] {
      ForeignIndexesValid(rows[..|rows| - 1], lower, t);
    }
  }

  // ---------------------------------------------------------------------------
  // Second pass: the indexes (lines 247-288)
  // ---------------------------------------------------------------------------

  /** The `type` of a new index (lines 276-282): primary key, then unique constraint, else plain index. */
  function IndexKind(row: IndexRow, constraintType: Option<string>, lower: string -> string): (kind: string)
    ensures kind == "PRIMARY KEY" <==> row.indexPrimary == "t"
    ensures kind == "UNIQUE" <==> row.indexPrimary != "t" && constraintType.Some? && lower(constraintType.value) == "unique"
    ensures kind == "PRIMARY KEY" || kind == "UNIQUE" || kind == "INDEX"
  {
    if row.indexPrimary == "t" then "PRIMARY KEY"
    else if constraintType.Some? && lower(constraintType.value) == "unique" then "UNIQUE"
    else "INDEX"
  }

  /** The entry the first row of an index makes, when its key has none yet. */
  function NewIndex(t: TableRef, row: IndexRow, constraintType: Option<string>, lower: string -> string): TableIndex {
    TableIndex(row.keyName, t.databaseName, t.schemaName, t.tableName, IndexKind(row, constraintType, lower),
               row.nonUnique != "t", row.indexMethod, row.indexComment, Some([IndexColumn(row)]), None, None, None)
  }

  /** `tableIndex.columnList`, with `[]` for an entry that has none yet. */
  function ColumnListOf(index: TableIndex): seq<TableIndexColumn> {
    if index.columnList.Some? then index.columnList.value else []
  }

  /** What one index row does to `map`. */
  function IndexStep(indexMap: JsMap<string, TableIndex>, row: IndexRow, constraintMap: JsMap<string, Option<string>>,
                     lower: string -> string, t: TableRef): JsMap<string, TableIndex>
  {
    match indexMap.Get(row.keyName)
    case Some(index) =>
      indexMap.Set(row.keyName, index.(columnList := Some(Sort(ColumnListOf(index) + [IndexColumn(row)], PosLe))))
    case None =>
      indexMap.Set(row.keyName, NewIndex(t, row, ConstraintType(constraintMap, row.keyName), lower))
  }

  /** `map` after the index rows `rows`, starting from `start`. */
  function IndexesFrom(start: JsMap<string, TableIndex>, rows: seq<IndexRow>, constraintMap: JsMap<string, Option<string>>,
                       lower: string -> string, t: TableRef): JsMap<string, TableIndex>
    decreases |rows|
  {
    if rows == [] then start
    else IndexStep(IndexesFrom(start, rows[..|rows| - 1], constraintMap, lower, t), rows[|rows| - 1], constraintMap, lower, t)
  }

  /** The index rows of `k`, in row order. */
  function IndexRows(rows: seq<IndexRow>, k: string): (g: seq<IndexRow>)
    ensures forall row :: row in g <==> row in rows && row.keyName == k
    decreases |rows|
  {
    if rows == [] then []
    else
      var row := rows[|rows| - 1];
      assert rows == rows[..|rows| - 1] + [row];
      IndexRows(rows[..|rows| - 1], k) + (if row.keyName == k then [row] else [])
  }

  function Columns(rows: seq<IndexRow>): (cs: seq<TableIndexColumn>)
    ensures |cs| == |rows| && forall i :: 0 <= i < |rows| ==> cs[i] == IndexColumn(rows[i])
    decreases |rows|
  {
    if rows == [] then [] else Columns(rows[..|rows| - 1]) + [IndexColumn(rows[|rows| - 1])]
  }

  lemma SortSingle(c: TableIndexColumn)
    ensures Sort([c], PosLe) == [c]
  {
    assert [c][..0] == [];
  }

  /** The entry of `k` after the rows of `k` in `g`, given the entry it had before them. */
  ghost predicate GroupedEntry(r: Option<TableIndex>, before: Option<TableIndex>, g: seq<IndexRow>,
                               constraintMap: JsMap<string, Option<string>>, lower: string -> string,
                               t: TableRef, k: string)
  {
    var sorted := Some(Sort(Columns(g), PosLe));
    && (g == [] ==> r == before)
    && (g != [] && before.Some? ==> r == Some(before.value.(columnList := sorted)))
    && (g != [] && before.None? ==> r == Some(NewIndex(t, g[0], ConstraintType(constraintMap, k), lower).(columnList := sorted)))
  }

  /** One more index row of `k` pushes its column onto the entry's sorted list. */
  lemma GroupedEntryStep(m0: JsMap<string, TableIndex>, before: Option<TableIndex>, g0: seq<IndexRow>, row: IndexRow,
                         constraintMap: JsMap<string, Option<string>>, lower: string -> string, t: TableRef, k: string)
    requires row.keyName == k
    requires before.Some? ==> before.value.columnList.None?
    requires GroupedEntry(m0.Get(k), before, g0, constraintMap, lower, t, k)
    ensures GroupedEntry(IndexStep(m0, row, constraintMap, lower, t).Get(k), before, g0 + [row], constraintMap, lower, t, k)
  {
    var g := g0 + [row];
    var c := IndexColumn(row);
    assert g[..|g0|] == g0;
    assert Columns(g) == Columns(g0) + [c];
    if g0 == [] {
      assert g == [row];
      assert Columns(g) == [c];
      SortSingle(c);
      assert [] + [c] == [c];
    } else {
      assert g[0] == g0[0];
      PosLeTotal();
      PushThenSort(Columns(g0), c, PosLe);
    }
  }

  /**
   * After the second pass, a key without index rows keeps the entry it had. A key with index
   * rows lists their columns sorted by position in the index; its other fields are those of
   * the entry it had, or else those its first index row gave it.
   */
  lemma {:induction false} IndexGrouping(start: JsMap<string, TableIndex>, rows: seq<IndexRow>,
                                         constraintMap: JsMap<string, Option<string>>, lower: string -> string,
                                         t: TableRef, k: string)
    requires start.Get(k).Some? ==> start.Get(k).value.columnList.None?
    ensures GroupedEntry(IndexesFrom(start, rows, constraintMap, lower, t).Get(k), start.Get(k), IndexRows(rows, k),
                         constraintMap, lower, t, k)
    decreases |rows|
  {
    if rows != [] {
      var init, row := rows[..|rows| - 1], rows[|rows| - 1];
      IndexGrouping(start, init, constraintMap, lower, t, k);
      var m0 := IndexesFrom(start, init, constraintMap, lower, t);
      var g0 := IndexRows(init, k);
      assert IndexesFrom(start, rows, constraintMap, lower, t) == IndexStep(m0, row, constraintMap, lower, t);
      if row.keyName == k {
        assert IndexRows(rows, k) == g0 + [row];
        GroupedEntryStep(m0, start.Get(k), g0, row, constraintMap, lower, t, k);
      } else {
        assert IndexRows(rows, k) == g0;
        assert IndexStep(m0, row, constraintMap, lower, t).Get(k) == m0.Get(k);
      }
    }
  }

  lemma {:induction false} IndexesFromValid(start: JsMap<string, TableIndex>, rows: seq<IndexRow>,
                                            constraintMap: JsMap<string, Option<string>>, lower: string -> string,
                                            t: TableRef)
    requires start.Valid()
    ensures IndexesFrom(start, rows, constraintMap, lower, t).Valid()
    decreases |rows|
  {
    if rows != [] {
      IndexesFromValid(start, rows[..|rows| - 1], constraintMap, lower, t);
    }
  }

  /** The entries `Object.values(map)` lists, after both passes. */
  function IndexMap(keyRows: seq<KeyRow>, indexRows: seq<IndexRow>, lower: string -> string, t: TableRef)
    : JsMap<string, TableIndex>
  {
    IndexesFrom(ForeignIndexes(keyRows, lower, t), indexRows, SetAll(Empty(), KeyTypes(keyRows)), lower, t)
  }

  /**
   * What `getIndexes` reports for the key `k`. A foreign key keeps type `FOREIGN KEY`, the
   * foreign table of its first row and all its foreign columns; any other key with index rows
   * takes its type, uniqueness, method and comment from its first index row and the last
   * constraint type of its name. Every entry with index rows lists their columns sorted by
   * position in the index, and a key with neither kind of row has no entry.
   */
  lemma IndexesOfKey(keyRows: seq<KeyRow>, indexRows: seq<IndexRow>, lower: string -> string, t: TableRef, k: string)
    ensures IndexMap(keyRows, indexRows, lower, t).Valid()
    ensures var fk := ForeignRows(keyRows, lower, k);
            var g := IndexRows(indexRows, k);
            var r := IndexMap(keyRows, indexRows, lower, t).Get(k);
            var columns := if g == [] then None else Some(Sort(Columns(g), PosLe));
            && (fk == [] && g == [] ==> r == None)
            && (fk != [] ==>
                  r == Some(ForeignIndex(t, fk[0]).(foreignColumnNamelist := Some(ColumnNames(fk)), columnList := columns)))
            && (fk == [] && g != [] ==>
                  r == Some(NewIndex(t, g[0], LastConstraint(keyRows, k), lower).(columnList := columns)))
  {
    var constraintMap := SetAll(Empty(), KeyTypes(keyRows));
    SetAllFromEmpty(KeyTypes(keyRows));
    assert ConstraintType(constraintMap, k) == LastConstraint(keyRows, k);
    ForeignIndexesValid(keyRows, lower, t);
    IndexesFromValid(ForeignIndexes(keyRows, lower, t), indexRows, constraintMap, lower, t);
    ForeignGrouping(keyRows, lower, t, k);
    IndexGrouping(ForeignIndexes(keyRows, lower, t), indexRows, constraintMap, lower, t, k);
  }

  /** Every entry's columns are in order of position in the index, and are exactly its rows' columns. */
  lemma IndexColumnsOrdered(keyRows: seq<KeyRow>, indexRows: seq<IndexRow>, lower: string -> string, t: TableRef, k: string)
    requires IndexMap(keyRows, indexRows, lower, t).Get(k).Some?
    ensures var index := IndexMap(keyRows, indexRows, lower, t).Get(k).value;
            var cs := ColumnListOf(index);
            && (index.columnList.Some? <==> IndexRows(indexRows, k) != [])
            && Sorted(cs, PosLe)
            && multiset(cs) == multiset(Columns(IndexRows(indexRows, k)))
  {
    IndexesOfKey(keyRows, indexRows, lower, t, k);
    PosLeTotal();
    SortSorted(Columns(IndexRows(indexRows, k)), PosLe);
  }

  // ---------------------------------------------------------------------------
  // getIndexes
  // ---------------------------------------------------------------------------

  /**
   * The first loop of `getIndexes` (lines 215-241): every key row records its constraint type,
   * and foreign-key rows are merged per key name.
   */
  method CollectKeys(keyRows: seq<KeyRow>, lower: string -> string, t: TableRef)
    returns (constraintMap: JsMap<string, Option<string>>, foreignMap: JsMap<string, TableIndex>)
    ensures constraintMap == SetAll(Empty(), KeyTypes(keyRows))
    ensures foreignMap == ForeignIndexes(keyRows, lower, t)
  {
    constraintMap := Empty();
    foreignMap := Empty();
    for i := 0 to |keyRows|
      invariant constraintMap == SetAll(Empty(), KeyTypes(keyRows[..i]))
      invariant foreignMap == ForeignIndexes(keyRows[..i], lower, t)
    {
      var row := keyRows[i];
      assert keyRows[..i + 1][..i] == keyRows[..i];
      assert KeyTypes(keyRows[..i + 1]) == KeyTypes(keyRows[..i]) + [(row.keyName, row.constraintType)];
      var keyName := row.keyName;
      var constraintType := row.constraintType;
      constraintMap := constraintMap.Set(keyName, constraintType);
      if constraintType.Some? && lower(constraintType.value) == "foreign key" {
        var tableIndex := foreignMap.Get(keyName);
        if tableIndex.None? {
          foreignMap := foreignMap.Set(keyName, ForeignIndex(t, row));
        } else {
          var index := tableIndex.value;
          foreignMap := foreignMap.Set(keyName, index.(foreignColumnNamelist := Some(ForeignNames(index) + [row.columnName])));
        }
      }
    }
    assert keyRows[..|keyRows|] == keyRows;
  }

  /**
   * The second loop of `getIndexes` (lines 247-286), starting from a copy of the foreign keys:
   * every index row joins its key's entry, whose column list is kept sorted, or opens one.
   */
  method GroupIndexes(foreignMap: JsMap<string, TableIndex>, indexRows: seq<IndexRow>,
                      constraintMap: JsMap<string, Option<string>>, lower: string -> string, t: TableRef)
    returns (indexMap: JsMap<string, TableIndex>)
    ensures indexMap == IndexesFrom(foreignMap, indexRows, constraintMap, lower, t)
  {
    indexMap := foreignMap;
    for i := 0 to |indexRows|
      invariant indexMap == IndexesFrom(foreignMap, indexRows[..i], constraintMap, lower, t)
    {
      var row := indexRows[i];
      assert indexRows[..i + 1][..i] == indexRows[..i];
      var keyName := row.keyName;
      var tableIndex := indexMap.Get(keyName);
      if tableIndex.Some? {
        var index := tableIndex.value;
        var columnList := ColumnListOf(index);
        columnList := columnList + [IndexColumn(row)];
        columnList := Sort(columnList, PosLe);
        indexMap := indexMap.Set(keyName, index.(columnList := Some(columnList)));
      } else {
        var constraintType := ConstraintType(constraintMap, keyName);
        var index := NewIndex(t, row, constraintType, lower);
        indexMap := indexMap.Set(keyName, index);
      }
    }
    assert indexRows[..|indexRows|] == indexRows;
  }

  /**
   * `getIndexes` (lines 200-293). `keyQuery` and `indexQuery` are what the two queries returned
   * or threw; the second is only run when the first succeeded.
   */
  method GetIndexes(keyQuery: Result<seq<KeyRow>>, indexQuery: Result<seq<IndexRow>>, lower: string -> string, t: TableRef)
    returns (result: Result<seq<TableIndex>>)
    ensures keyQuery.Err? ==> result == Err(PgMetadata.Failure("indexes", keyQuery.message))
    ensures keyQuery.Ok? && indexQuery.Err? ==> result == Err(PgMetadata.Failure("indexes", indexQuery.message))
    ensures keyQuery.Ok? && indexQuery.Ok? ==>
              result == Ok(IndexMap(keyQuery.value, indexQuery.value, lower, t).Values())
  {
    if keyQuery.Err? {
      return Err(PgMetadata.Failure("indexes", keyQuery.message));
    }
    var constraintMap, foreignMap := CollectKeys(keyQuery.value, lower, t);
    if indexQuery.Err? {
      return Err(PgMetadata.Failure("indexes", indexQuery.message));
    }
    var indexMap := GroupIndexes(foreignMap, indexQuery.value, constraintMap, lower, t);
    result := Ok(indexMap.Values());
  }
}
