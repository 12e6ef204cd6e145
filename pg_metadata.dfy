/**
 * The result-row processing of the PostgreSQL metadata provider
 * (src/server/services/database/plugins/postgresql/PostgreSQLMetadataProvider.ts): placeholder
 * formatting of the SQL texts, the system-last sorts, and the loops that turn the rows of
 * `getDatabases`, `getSchemas`, `getTables` and `getColumns` into metadata records, plus
 * `getView`. The queries themselves are outside: each getter takes what its query returned
 * (the rows, or the text of the error it threw). `localeCompare` and `toUpperCase` are
 * parameters, since their tables are not part of the model.
 */
module PgMetadata {
  import opened Wrappers
  import opened Sorting

  // ---------------------------------------------------------------------------
  // format
  // ---------------------------------------------------------------------------

  /** What `args.shift()` yields as text: the next argument, or `undefined` once they run out. */
  function NextArg(args: seq<string>): string {
    if args == [] then "undefined" else args[0]
  }

  function RestArgs(args: seq<string>): seq<string> {
    if args == [] then [] else args[1..]
  }

  /** `s` holds no `%s`. */
  predicate NoPlaceholder(s: string)
    decreases |s|
  {
    s == [] || (!(|s| >= 2 && s[0] == '%' && s[1] == 's') && NoPlaceholder(s[1..]))
  }

  /**
   * `format(sql, ...args)` (lines 501-505): `sql.replace(/%s/g, () => args.shift())`. The
   * matches are found left to right without overlapping, and inserted text is not searched.
   */
  function Format(sql: string, args: seq<string>): (r: string)
    ensures NoPlaceholder(sql) ==> r == sql
    decreases |sql|
  {
    if sql == [] then []
    else if |sql| >= 2 && sql[0] == '%' && sql[1] == 's' then NextArg(args) + Format(sql[2..], RestArgs(args))
    else [sql[0]] + Format(sql[1..], args)
  }

  /**
   * The first `%s` of `a + "%s" + b` is the one after `a`: it takes the next argument, and the
   * rest of the text is formatted with the arguments that are left.
   */
  lemma {:induction false} FormatPlaceholder(a: string, b: string, args: seq<string>)
    requires NoPlaceholder(a)
    ensures Format(a + "%s" + b, args) == a + NextArg(args) + Format(b, RestArgs(args))
    decreases |a|
  {
    var s := a + "%s" + b;
    if a == [] {
      assert s[2..] == b;
    } else {
      assert s[1..] == a[1..] + "%s" + b;
      assert s[0] == a[0] && s[1] == (if |a| >= 2 then a[1] else '%');
      var next, formatted := NextArg(args), Format(b, RestArgs(args));
      FormatPlaceholder(a[1..], b, args);
      var rec := Format(s[1..], args);
      assert rec == a[1..] + next + formatted;
      assert Format(s, args) == [a[0]] + rec;
      Regroup([a[0]], a[1..] + next, formatted);
      Regroup([a[0]], a[1..], next);
      assert [a[0]] + a[1..] == a;
    }
  }

  /** Text without a `%` holds no placeholder. */
  lemma {:induction false} NoPercent(s: string)
    requires '%' !in s
    ensures NoPlaceholder(s)
    decreases |s|
  {
    if s != [] {
      assert s == [s[0]] + s[1..];
      NoPercent(s[1..]);
    }
  }

  /** The text of `getView`'s query (lines 41-42) before its first placeholder. */
  const ViewSqlHead := "SELECT schemaname, " + "viewname, definition " + "FROM pg_views WHERE schemaname = '"
  const ViewSqlMiddle := "' AND viewname = '"
  const ViewSqlTail := "';"
  const ViewSql := ViewSqlHead + "%s" + ViewSqlMiddle + "%s" + ViewSqlTail

  lemma ViewSqlPieces()
    ensures NoPlaceholder(ViewSqlHead) && NoPlaceholder(ViewSqlMiddle) && NoPlaceholder(ViewSqlTail)
  {
    assert '%' !in "SELECT schemaname, " && '%' !in "viewname, definition "
        && '%' !in "FROM pg_views WHERE schemaname = '";
    NoPercent(ViewSqlHead);
    NoPercent(ViewSqlMiddle);
    NoPercent(ViewSqlTail);
  }

  /** A text with one placeholder takes the one argument given. */
  lemma FormatOne(b: string, c: string, y: string)
    requires NoPlaceholder(b) && NoPlaceholder(c)
    ensures Format(b + "%s" + c, [y]) == b + y + c
  {
    assert NextArg([y]) == y && RestArgs([y]) == [];
    FormatPlaceholder(b, c, [y]);
  }

  /**
   * A text with two placeholders takes the first two arguments, in order, and the text after
   * the second placeholder unchanged.
   */
  lemma FormatTwo(a: string, b: string, c: string, x: string, y: string)
    requires NoPlaceholder(a) && NoPlaceholder(b) && NoPlaceholder(c)
    ensures Format(a + "%s" + b + "%s" + c, [x, y]) == a + x + b + y + c
  {
    var rest := b + "%s" + c;
    var whole := a + "%s" + b + "%s" + c;
    assert whole == a + "%s" + rest;
    var args := [x, y];
    assert NextArg(args) == x && RestArgs(args) == [y];
    FormatPlaceholder(a, rest, args);
    FormatOne(b, c, y);
    Regroup(a + x, b + y, c);
    Regroup(a + x, b, y);
  }

  lemma Regroup(p: string, q: string, r: string)
    ensures p + (q + r) == p + q + r
  {
  }

  /** `getView`'s query puts the schema and view names between the quotes, in that order. */
  lemma ViewSqlFormatted(sql: string, schemaName: string, viewName: string)
    requires sql == ViewSql
    ensures Format(sql, [schemaName, viewName]) == ViewSqlHead + schemaName + ViewSqlMiddle + viewName + ViewSqlTail
  {
    ViewSqlPieces();
    FormatTwo(ViewSqlHead, ViewSqlMiddle, ViewSqlTail, schemaName, viewName);
  }

  // ---------------------------------------------------------------------------
  // System-last sorting
  // ---------------------------------------------------------------------------

  const SystemDatabases: seq<string> := ["postgres"]
  const SystemSchemas: seq<string> := ["pg_toast", "pg_temp_1", "pg_toast_temp_1", "pg_catalog", "information_schema"]

  /**
   * The comparator of `sortDatabase` and `sortSchemas` (lines 516-538), as "`a` does not sort
   * after `b`": a system name sorts after every other name, and names of the same kind follow
   * `localeCompare`, given as `collate(a, b)` for `a.localeCompare(b) <= 0`.
   */
  function SystemLast(system: seq<string>, collate: (string, string) -> bool, a: string, b: string): bool {
    var aIsSystem := a in system;
    var bIsSystem := b in system;
    if aIsSystem && !bIsSystem then false
    else if !aIsSystem && bIsSystem then true
    else collate(a, b)
  }

  lemma SystemLastTotal(system: seq<string>, collate: (string, string) -> bool)
    requires TotalPreorder(collate)
    ensures TotalPreorder((a: string, b: string) => SystemLast(system, collate, a, b))
  {
  }

  datatype Database = Database(name: string)
  datatype Schema = Schema(name: string, databaseName: string)

  /** `sortDatabase` (lines 516-526). */
  function SortDatabase(databases: seq<Database>, collate: (string, string) -> bool): (r: seq<Database>)
    ensures multiset(r) == multiset(databases)
  {
    Sort(databases, (x: Database, y: Database) => SystemLast(SystemDatabases, collate, x.name, y.name))
  }

  /** `sortSchemas` (lines 528-538). */
  function SortSchemas(schemas: seq<Schema>, collate: (string, string) -> bool): (r: seq<Schema>)
    ensures multiset(r) == multiset(schemas)
  {
    Sort(schemas, (x: Schema, y: Schema) => SystemLast(SystemSchemas, collate, x.name, y.name))
  }

  /**
   * `sortDatabase` puts `postgres` after every other database, and orders the names of each
   * kind by `localeCompare`.
   */
  lemma SortDatabaseOrder(databases: seq<Database>, collate: (string, string) -> bool)
    requires TotalPreorder(collate)
    ensures var r := SortDatabase(databases, collate);
            && multiset(r) == multiset(databases)
            && (forall i, j :: 0 <= i < j < |r| && r[i].name in SystemDatabases ==> r[j].name in SystemDatabases)
            && (forall i, j :: 0 <= i < j < |r| && (r[i].name in SystemDatabases <==> r[j].name in SystemDatabases)
                  ==> collate(r[i].name, r[j].name))
  {
    var le := (x: Database, y: Database) => SystemLast(SystemDatabases, collate, x.name, y.name);
    SortSorted(databases, le);
  }

  /** `sortSchemas` puts the five system schemas after every other schema, each kind by `localeCompare`. */
  lemma SortSchemasOrder(schemas: seq<Schema>, collate: (string, string) -> bool)
    requires TotalPreorder(collate)
    ensures var r := SortSchemas(schemas, collate);
            && multiset(r) == multiset(schemas)
            && (forall i, j :: 0 <= i < j < |r| && r[i].name in SystemSchemas ==> r[j].name in SystemSchemas)
            && (forall i, j :: 0 <= i < j < |r| && (r[i].name in SystemSchemas <==> r[j].name in SystemSchemas)
                  ==> collate(r[i].name, r[j].name))
  {
    var le := (x: Schema, y: Schema) => SystemLast(SystemSchemas, collate, x.name, y.name);
    SortSorted(schemas, le);
  }

  // ---------------------------------------------------------------------------
  // The row loops
  // ---------------------------------------------------------------------------

  /**
   * The text of the error a getter throws when its query failed; `thrown` is what `${error}`
   * writes for the caught error (for an `Error`, its name, `: ` and its message).
   */
  function Failure(what: string, thrown: string): string {
    "Failed to get " + what + ": " + thrown
  }

  /** The databases the loop of `getDatabases` keeps: every name but the two templates. */
  function NonTemplates(names: seq<string>): (dbs: seq<Database>)
    ensures forall d :: d in dbs <==> d.name in names && d.name != "template0" && d.name != "template1"
    decreases |names|
  {
    if names == [] then []
    else
      var name := names[|names| - 1];
      assert names == names[..|names| - 1] + [name];
      NonTemplates(names[..|names| - 1]) + (if name == "template0" || name == "template1" then [] else [Database(name)])
  }

  /** `getDatabases` (lines 50-70): `query` holds the `datname` of each row, or what was thrown. */
  method GetDatabases(query: Result<seq<string>>, collate: (string, string) -> bool)
    returns (result: Result<seq<Database>>)
    ensures query.Err? ==> result == Err(Failure("databases", query.message))
    ensures query.Ok? ==> result == Ok(SortDatabase(NonTemplates(query.value), collate))
  {
    if query.Err? {
      return Err(Failure("databases", query.message));
    }
    var rows := query.value;
    var databases: seq<Database> := [];
    for i := 0 to |rows|
      invariant databases == NonTemplates(rows[..i])
    {
      var dbName := rows[i];
      assert rows[..i + 1] == rows[..i] + [dbName];
      if dbName == "template0" || dbName == "template1" {
        continue;
      }
      databases := databases + [Database(dbName)];
    }
    assert rows[..|rows|] == rows;
    result := Ok(SortDatabase(databases, collate));
  }

  datatype SchemaRow = SchemaRow(catalogName: string, schemaName: string)

  /** `getSchemas` (lines 75-98). */
  method GetSchemas(query: Result<seq<SchemaRow>>, collate: (string, string) -> bool)
    returns (result: Result<seq<Schema>>)
    ensures query.Err? ==> result == Err(Failure("schemas", query.message))
    ensures query.Ok? ==> result.Ok? && exists schemas: seq<Schema> ::
              && |schemas| == |query.value|
              && (forall i :: 0 <= i < |schemas| ==>
                    schemas[i] == Schema(query.value[i].schemaName, query.value[i].catalogName))
              && result.value == SortSchemas(schemas, collate)
  {
    if query.Err? {
      return Err(Failure("schemas", query.message));
    }
    var rows := query.value;
    var schemas: seq<Schema> := [];
    for i := 0 to |rows|
      invariant |schemas| == i
      invariant forall k :: 0 <= k < i ==> schemas[k] == Schema(rows[k].schemaName, rows[k].catalogName)
    {
      var name := rows[i].schemaName;
      var catalogName := rows[i].catalogName;
      schemas := schemas + [Schema(name, catalogName)];
    }
    result := Ok(SortSchemas(schemas, collate));
  }

  datatype TableRow = TableRow(tableName: string, tableType: string)
  datatype Table = Table(name: string, databaseName: string, schemaName: string, kind: string)

  /** `getTables` (lines 103-130): one table per row, in row order. */
  method GetTables(query: Result<seq<TableRow>>, databaseName: string, schemaName: string)
    returns (result: Result<seq<Table>>)
    ensures query.Err? ==> result == Err(Failure("tables", query.message))
    ensures query.Ok? ==> result.Ok? && |result.value| == |query.value|
    ensures query.Ok? ==> forall i :: 0 <= i < |query.value| ==>
              && result.value[i].name == query.value[i].tableName
              && result.value[i].databaseName == databaseName
              && result.value[i].schemaName == schemaName
              && (result.value[i].kind == "VIEW" <==> query.value[i].tableType == "VIEW")
              && (result.value[i].kind == "VIEW" || result.value[i].kind == "TABLE")
  {
    if query.Err? {
      return Err(Failure("tables", query.message));
    }
    var rows := query.value;
    var tables: seq<Table> := [];
    for i := 0 to |rows|
      invariant |tables| == i
      invariant forall k :: 0 <= k < i ==>
                  tables[k] == Table(rows[k].tableName, databaseName, schemaName,
                                     if rows[k].tableType == "VIEW" then "VIEW" else "TABLE")
    {
      tables := tables + [Table(rows[i].tableName, databaseName, schemaName,
                                if rows[i].tableType == "VIEW" then "VIEW" else "TABLE")];
    }
    result := Ok(tables);
  }

  datatype ColumnRow = ColumnRow(
    columnName: string, dataType: string, isNullable: bool, columnDefault: Option<string>,
    comment: Option<string>, ordinalPosition: int, characterMaximumLength: Option<int>,
    numericPrecision: Option<int>, numericScale: Option<int>)

  datatype TableColumn = TableColumn(
    name: string, dataType: string, isNullable: bool, columnDefault: Option<string>,
    comment: Option<string>, ordinalPosition: int, characterMaximumLength: Option<int>,
    numericPrecision: Option<int>, numericScale: Option<int>)

  /** The column type `getColumns` reports (lines 172-175), with `upper` for `toUpperCase`. */
  function ColumnType(upper: string -> string, dataType: string): (t: string)
    ensures t != "BPCHAR"
    ensures t == "CHAR" <==> upper(dataType) == "BPCHAR" || upper(dataType) == "CHAR"
    ensures upper(dataType) != "BPCHAR" ==> t == upper(dataType)
  {
    var columnType := upper(dataType);
    if columnType == "BPCHAR" then "CHAR" else columnType
  }

  /** `getColumns` (lines 135-195): one column per row, in row order, every other field copied. */
  method GetColumns(query: Result<seq<ColumnRow>>, upper: string -> string)
    returns (result: Result<seq<TableColumn>>)
    ensures query.Err? ==> result == Err(Failure("columns", query.message))
    ensures query.Ok? ==> result.Ok? && |result.value| == |query.value|
    ensures query.Ok? ==> forall i :: 0 <= i < |query.value| ==>
              var row, column := query.value[i], result.value[i];
              column == TableColumn(row.columnName, ColumnType(upper, row.dataType), row.isNullable,
                                    row.columnDefault, row.comment, row.ordinalPosition,
                                    row.characterMaximumLength, row.numericPrecision, row.numericScale)
  {
    if query.Err? {
      return Err(Failure("columns", query.message));
    }
    var rows := query.value;
    var columns: seq<TableColumn> := [];
    for i := 0 to |rows|
      invariant |columns| == i
      invariant forall k :: 0 <= k < i ==>
                  var row := rows[k];
                  columns[k] == TableColumn(row.columnName, ColumnType(upper, row.dataType), row.isNullable,
                                            row.columnDefault, row.comment, row.ordinalPosition,
                                            row.characterMaximumLength, row.numericPrecision, row.numericScale)
    {
      var row := rows[i];
      var columnType := upper(row.dataType);
      if columnType == "BPCHAR" {
        columnType := "CHAR";
      }
      columns := columns + [TableColumn(row.columnName, columnType, row.isNullable, row.columnDefault,
                                        row.comment, row.ordinalPosition, row.characterMaximumLength,
                                        row.numericPrecision, row.numericScale)];
    }
    result := Ok(columns);
  }

  datatype View = View(name: string, databaseName: string, schemaName: string, definition: string)

  /** `getView` (lines 298-325): `query` holds the `definition` of each row. */
  function GetView(query: Result<seq<string>>, databaseName: string, schemaName: string, viewName: string)
    : (result: Result<View>)
    ensures query.Err? <==> result.Err?
    ensures query.Err? ==> result.message == Failure("view", query.message)
    ensures query.Ok? ==> result.value.name == viewName && result.value.databaseName == databaseName
                          && result.value.schemaName == schemaName
    ensures query.Ok? && query.value == [] ==> result.value.definition == ""
    ensures query.Ok? && query.value != [] ==> result.value.definition == query.value[0]
  {
    match query
    case Err(thrown) => Err(Failure("view", thrown))
    case Ok(rows) => Ok(View(viewName, databaseName, schemaName, if |rows| > 0 then rows[0] else ""))
  }
}
