# Elytra core, modelled in Dafny

Elytra is a desktop SQL client. This project models the parts of it that compute rather
than render or talk to a database:

- **The SQL script splitter** (`splitSqlStatements` in `src/utils/sql-utils.ts`). It scans a
  script left to right with four lexical flags: single quote, double quote, line comment and
  block comment. A `;` read outside all four ends a statement. `trimStatement` shortens a
  statement for display.
- **The plugin registry** (`PluginRegistry.ts`). It is a map from plugin id to plugin.
- **The server connection manager** (`DatabaseConnectionManager.ts`). It keeps a map of live
  connections. The manager fills it with `createConnection`, empties it with
  `closeConnection`, and `testConnection` uses it.
- **The row processing of the PostgreSQL metadata provider**
  (`PostgreSQLMetadataProvider.ts`). This covers:
  - `%s` formatting;
  - the template-database filter;
  - the system-last sorts of databases and schemas;
  - the table, column and view loops;
  - the two-pass grouping of key and index rows in `getIndexes`.
- **The notebook tab** (`NotebookTabView.tsx`). A notebook is an ordered list of cell ids
  plus a map from id to cell. The operations append, remove, move, edit and run cells.
- **The workspace tree** (`DbTreeView.tsx`). It is a flat list of nodes that name their parents.
  It attaches new nodes under their parents, adds one node per connection under the root,
  and remembers which nodes it was asked to load.
- **The PostgreSQL connection form** (`PostgreSqlConnectionModal.tsx`). This covers the URL
  preview with its masked password, the validation schema and the defaults.

JavaScript's `Map` appears throughout. It is modelled by `JsMaps.JsMap`, which keeps its
keys in insertion order: replacing a value keeps its slot, and deleting removes it.
`Array.prototype.sort` is modelled by `Sorting.Sort`, which is stable insertion.

Each source file keeps its form:
- Objects whose fields the source updates in place are classes whose methods assign those
  fields. These are the registry, the connection manager, the notebook tab and the tree view.
- Loops are methods with loop invariants, each proved equal to a specification function:
  - the splitter's scan;
  - the metadata row loops;
  - the two passes of `getIndexes`;
  - `runCellAndBelow`;
  - the splices of `moveCell` on an array;
  - `updateTreeData`.
- Pure code is functions. This is `format`, the comparators, the URL preview, the schema
  and `trimStatement`.

Files:
- `wrappers.dfy`: `Option` and `Result`.
- `js_map.dfy`: the insertion-ordered map.
- `sorting.dfy`: the stable sort.
- `sql_utils.dfy`: the splitter and `trimStatement`.
- `sql_examples.dfy`: worked splitter examples.
- `plugin_registry.dfy`: the plugin registry.
- `connection_manager.dfy`: the connection manager.
- `pg_metadata.dfy`: `format`, the sorts and the row loops.
- `pg_indexes.dfy`: `getIndexes`.
- `notebook.dfy`: the notebook tab.
- `db_tree.dfy`: the workspace tree.
- `connection_url.dfy`: the connection form.

## Model

| member | source | states |
|---|---|---|
| SqlUtils.Trim | src/utils/sql-utils.ts:83 | `trim()` leaves no whitespace at either end, and its result is empty exactly when the text is all whitespace |
| SqlUtils.TrimIsInfix | src/utils/sql-utils.ts:83 | the trimmed text is a slice of the original with only whitespace cut from its two ends |
| SqlUtils.ScanStep | src/utils/sql-utils.ts:14-79 | one turn of the scan consumes one or two characters; it ends a statement exactly at a `;` read with all four flags clear, and then it consumes just the `;` and stays at top level; two characters are consumed only for `/*`, `*/` or a doubled quote `''` |
| SqlUtils.ScanStepExclusive | src/utils/sql-utils.ts:14-79 | the scan is never in two contexts at once (quote, double quote, line comment, block comment) |
| SqlUtils.ScanTurn | src/utils/sql-utils.ts:10-79 | the loop body over the four boolean flags does what ScanStep describes: it appends the consumed characters to the current statement, or at a top-level `;` pushes the trimmed statement (when non-blank) and starts a new one |
| SqlUtils.SplitSqlStatements | src/utils/sql-utils.ts:1-89 | the splitter returns exactly the script's pieces, each cut just after a top-level `;` with the leftover tail last, trimmed, blank ones dropped |
| SqlUtils.ScanTurnKeepsInvariant | src/utils/sql-utils.ts:9-80 | each turn keeps the loop invariant: the statements pushed so far are those of the pieces already cut, and the current statement is the text since the last cut |
| SqlUtils.CutKeepsInvariant | src/utils/sql-utils.ts:69-77 | a top-level `;` is kept in the statement it ends; that piece is cut off and scanning restarts at top level with an empty statement |
| SqlUtils.ContinueKeepsInvariant | src/utils/sql-utils.ts:15-67 | every other turn only extends the current piece with the characters it consumed |
| SqlUtils.ScanFinished | src/utils/sql-utils.ts:82-88 | at the end of input the unterminated text (in a quote, a comment, or after the last `;`) becomes the last statement when it is not blank; an open quote or comment is no error |
| SqlUtils.StatementsAppend | src/utils/sql-utils.ts:71-74 | the statements of consecutive runs of pieces are those of each run, one after the other |
| SqlUtils.PiecesConcat | src/utils/sql-utils.ts:15-80 | gluing the pieces back together gives the script: no character is lost, added or moved by the cutting |
| SqlUtils.PiecesFromConcat | src/utils/sql-utils.ts:15-80 | from any point of the scan, the remaining pieces glue back into the rest of the script |
| SqlUtils.PiecesCut | src/utils/sql-utils.ts:69-77 | every piece except the last ends with the `;` it was cut after |
| SqlUtils.PiecesFromCut | src/utils/sql-utils.ts:69-77 | from any point of the scan, every remaining piece but the last ends with `;` |
| SqlUtils.SplitSqlTrimmed | src/utils/sql-utils.ts:71-74 | every returned statement is non-empty and has no leading or trailing whitespace |
| SqlUtils.StatementsTrimmed | src/utils/sql-utils.ts:83-86 | trimming and dropping blank pieces leaves only non-empty statements without outer whitespace |
| SqlUtils.SplitSqlKeepsInk | src/utils/sql-utils.ts:1-89 | the non-whitespace characters of the statements, read in order, are exactly those of the script: only whitespace at statement ends is dropped |
| SqlUtils.InkTrim | src/utils/sql-utils.ts:72 | trimming removes only whitespace |
| SqlUtils.InkStatements | src/utils/sql-utils.ts:71-74 | trimming the pieces and dropping blank ones keeps every non-whitespace character in order |
| SqlUtils.SliceEnd | src/utils/sql-utils.ts:95 | where `slice(0, end)` stops: a non-negative end is clamped to the length, and a negative end counts back from the length, no lower than 0 |
| SqlUtils.TrimStatement | src/utils/sql-utils.ts:91-96 | a string no longer than `maxLength` is returned unchanged; a longer one keeps its prefix up to `slice(0, maxLength - 3)` and then `...` when `ellipsis` is set, nothing otherwise |
| SqlUtils.TrimStatementLength | src/utils/sql-utils.ts:91-96 | with `maxLength >= 3` the result is never longer than `maxLength`; a shortened string is exactly `maxLength` long with the ellipsis and `maxLength - 3` without |
| SqlUtils.QuietRun | src/utils/sql-utils.ts:79 | characters that the current context only appends leave the cutting unchanged |
| SqlExamples.SinglePiece | src/utils/sql-utils.ts:82-88 | a script with no top-level `;` and no outer whitespace is one statement |
| SqlExamples.BareSemicolon | src/utils/sql-utils.ts:69-74 | `SELECT 1;;` yields `SELECT 1;` and `;`: the lone `;` is appended before trimming, so it becomes a statement of its own |
| SqlExamples.DoubledQuote | src/utils/sql-utils.ts:49-55 | `SELECT 'it''s'; SELECT 2` yields `SELECT 'it''s';` and `SELECT 2`: the doubled quote does not close the string |
| SqlExamples.DoubledQuoteInside | src/utils/sql-utils.ts:49-53 | inside a single-quoted string the pair `''` is consumed in one turn and the string stays open |
| SqlExamples.LineComment | src/utils/sql-utils.ts:14-27 | in `SELECT 1 -- x;` then a newline and `SELECT 2`, the `;` inside the line comment does not end the statement, and the comment text is kept |
| SqlExamples.LineCommentBody | src/utils/sql-utils.ts:21-26 | a line comment runs up to and including the newline, after which the scan is back at top level |
| SqlExamples.UnterminatedQuote | src/utils/sql-utils.ts:82-88 | `SELECT 'a;b` is one statement: the `;` inside the unterminated string does not cut it, and the open string is no error |
| PluginRegistries.PluginRegistry.constructor | src/server/services/database/PluginRegistry.ts:4 | the registry starts empty |
| PluginRegistries.PluginRegistry.Register | src/server/services/database/PluginRegistry.ts:6-9 | the plugin is stored under its config's id, and a lookup of that id returns it; every other id resolves as before; no id becomes unresolvable; the plugin count grows by one exactly when the id is new, so re-registering replaces (last write wins) |
| PluginRegistries.PluginRegistry.GetAllPlugins | src/server/services/database/PluginRegistry.ts:11-13 | one plugin per registered id, each the one stored under its id, no id twice, and every registered plugin included |
| PluginRegistries.PluginRegistry.GetPlugin | src/server/services/database/PluginRegistry.ts:15-17 | a plugin is returned exactly when its id is registered, and it carries that id; otherwise `undefined` (None), never an error |
| PluginRegistries.PluginRegistry.GetPluginConfig | src/server/services/database/PluginRegistry.ts:19-21 | a config is returned exactly when a plugin is registered under the id, and it is that plugin's config |
| PluginRegistries.RegisteredStep | src/server/services/database/PluginRegistry.ts:8 | one more registration is one more `set` on the map the earlier ones built |
| PluginRegistries.RegistrationOrder | src/server/services/database/PluginRegistry.ts:4-13 | after any run of registrations the ids are listed once each, in order of first registration, and each resolves to the last plugin registered under it |
| PluginRegistries.ValuesKeyed | src/server/services/database/PluginRegistry.ts:11-13 | the map's values, listed in key order, are one plugin per id, each stored under its own id |
| ConnectionManagers.ConnectionManager.constructor | src/server/services/database/DatabaseConnectionManager.ts:9-11 | a new manager has no connections |
| ConnectionManagers.ConnectionManager.CreateConnection | src/server/services/database/DatabaseConnectionManager.ts:13-35 | an unregistered plugin fails with the TypeError's message and the map is unchanged; a failed plugin create fails with its message and the map is unchanged; a created connection is stored under its id, no other entry changes, and it is returned with `Connection created successfully`; success holds exactly when a connection is returned |
| ConnectionManagers.ConnectionManager.CloseConnection | src/server/services/database/DatabaseConnectionManager.ts:59-68 | an unknown id throws nothing and changes nothing; for a present id, an unregistered plugin or a throwing plugin close propagates the error and leaves the entry in place, otherwise exactly that id is deleted; other ids are never touched |
| ConnectionManagers.ConnectionManager.TestConnection | src/server/services/database/DatabaseConnectionManager.ts:37-57 | each failure (missing plugin, create, version) gives `success: false` with that message and no time; `success` holds exactly when a time is given, and then the message is the server version; once the version is read, the result is decided by the stored entry with the test connection's id: none gives success, an entry whose plugin is missing gives the missing-plugin message, a failed close gives its message, a close that succeeds gives success; the test connection is never stored, and when its id is not in the map the map is unchanged |
| ConnectionManagers.ConnectionManager.GetAllConnectionIds | src/server/services/database/DatabaseConnectionManager.ts:70-72 | exactly the ids of the live connections, each once |
| ConnectionManagers.ConnectionManagerHolder.GetInstance | src/server/services/database/DatabaseConnectionManager.ts:74-79 | the first call makes an empty manager, and every later call returns that same manager |
| JsMaps.JsMap.Get | src/server/services/database/PluginRegistry.ts:16 | `get` returns a value exactly when the key is present |
| JsMaps.JsMap.Set | src/server/services/database/PluginRegistry.ts:8 | after `set` the key maps to the value and every other key is unchanged; a present key keeps its place in the order and a new key goes last |
| JsMaps.JsMap.Delete | src/components/tabs/notebook-tab/NotebookTabView.tsx:87 | after `delete` the key is absent, every other key is unchanged, and the order loses only that key |
| JsMaps.JsMap.Values | src/server/services/database/PluginRegistry.ts:12 | `values()` lists the stored values in key order |
| JsMaps.SetAllFromEmpty | src/server/services/database/plugins/postgresql/PostgreSQLMetadataProvider.ts:215-218 | after a run of `set`s on an empty map each key appears once in order of first setting and holds the last value set for it |
| JsMaps.Without | src/components/tabs/notebook-tab/NotebookTabView.tsx:85 | `filter((id) => id !== x)` drops every occurrence of `x` and keeps every other element as often as before; without `x` the list is returned unchanged |
| JsMaps.WithoutCount | src/components/tabs/notebook-tab/NotebookTabView.tsx:85 | after the filter every other element occurs as often as before and `x` not at all |
| JsMaps.WithoutAppend | src/components/tabs/notebook-tab/NotebookTabView.tsx:85 | the filter works element by element: filtering a concatenation is the concatenation of the filtered parts, so the kept elements stay in their order |
| Sorting.Sort | src/server/services/database/plugins/postgresql/PostgreSQLMetadataProvider.ts:518-525 | sorting returns a permutation of its input |
| Sorting.SortSorted | src/server/services/database/plugins/postgresql/PostgreSQLMetadataProvider.ts:518-525 | with a consistent comparator the result is in the comparator's order |
| Sorting.SortOfSorted | src/server/services/database/plugins/postgresql/PostgreSQLMetadataProvider.ts:261 | sorting a list that is already in order leaves it unchanged |
| Sorting.PushThenSort | src/server/services/database/plugins/postgresql/PostgreSQLMetadataProvider.ts:259-261 | pushing onto a sorted list and sorting again gives the sorted order of everything pushed |
| PgMetadata.Format | src/server/services/database/plugins/postgresql/PostgreSQLMetadataProvider.ts:501-505 | a text with no `%s` is returned unchanged |
| PgMetadata.FormatPlaceholder | src/server/services/database/plugins/postgresql/PostgreSQLMetadataProvider.ts:501-505 | the first `%s` takes the next argument (`undefined` once they run out) and the rest of the text is formatted with the arguments left; text before it is kept |
| PgMetadata.FormatTwo | src/server/services/database/plugins/postgresql/PostgreSQLMetadataProvider.ts:501-505 | with two placeholders and two arguments, the first `%s` becomes the first argument and the second the second, all other text unchanged |
| PgMetadata.ViewSqlFormatted | src/server/services/database/plugins/postgresql/PostgreSQLMetadataProvider.ts:306 | `getView`'s query gets the schema name and then the view name between its quotes |
| PgMetadata.SystemLastTotal | src/server/services/database/plugins/postgresql/PostgreSQLMetadataProvider.ts:516-538 | the system-last comparator is a consistent order whenever `localeCompare` is |
| PgMetadata.SortDatabaseOrder | src/server/services/database/plugins/postgresql/PostgreSQLMetadataProvider.ts:516-526 | `sortDatabase` returns a permutation with `postgres` after every other database, and the names of each kind in `localeCompare` order |
| PgMetadata.SortSchemasOrder | src/server/services/database/plugins/postgresql/PostgreSQLMetadataProvider.ts:528-538 | `sortSchemas` returns a permutation with the five system schemas after every other schema, each kind in `localeCompare` order |
| PgMetadata.NonTemplates | src/server/services/database/plugins/postgresql/PostgreSQLMetadataProvider.ts:56-62 | a database is kept exactly when its name is a row's name other than `template0` and `template1` |
| PgMetadata.GetDatabases | src/server/services/database/plugins/postgresql/PostgreSQLMetadataProvider.ts:50-70 | a failed query gives `Failed to get databases: ...`; otherwise the loop keeps the non-template names in row order and the result is their system-last sort |
| PgMetadata.GetSchemas | src/server/services/database/plugins/postgresql/PostgreSQLMetadataProvider.ts:75-98 | a failed query gives `Failed to get schemas: ...`; otherwise one schema per row, named by `schema_name` in the database `catalog_name`, sorted system-last |
| PgMetadata.GetTables | src/server/services/database/plugins/postgresql/PostgreSQLMetadataProvider.ts:103-130 | a failed query gives `Failed to get tables: ...`; otherwise one table per row in row order, of type `VIEW` exactly when `table_type` is `VIEW`, else `TABLE` |
| PgMetadata.ColumnType | src/server/services/database/plugins/postgresql/PostgreSQLMetadataProvider.ts:172-175 | the reported type is the upper-cased type with `BPCHAR` renamed to `CHAR`, so `BPCHAR` never appears |
| PgMetadata.GetColumns | src/server/services/database/plugins/postgresql/PostgreSQLMetadataProvider.ts:135-195 | a failed query gives `Failed to get columns: ...`; otherwise one column per row in row order with the normalised type and every other field copied |
| PgMetadata.GetView | src/server/services/database/plugins/postgresql/PostgreSQLMetadataProvider.ts:298-325 | a failed query gives `Failed to get view: ...`; otherwise the view is named as asked, with the first row's definition or `""` when there are no rows |
| PgIndexes.IndexColumn | src/server/services/database/plugins/postgresql/PostgreSQLMetadataProvider.ts:507-514 | the column takes its name and position from the row, and both `collation` and `ascOrDesc` from the row's collation |
| PgIndexes.IndexKind | src/server/services/database/plugins/postgresql/PostgreSQLMetadataProvider.ts:276-282 | `PRIMARY KEY` exactly when `index_primary` is `t`; otherwise `UNIQUE` exactly when the key's constraint type lower-cases to `unique`; otherwise `INDEX` |
| PgIndexes.ForeignGrouping | src/server/services/database/plugins/postgresql/PostgreSQLMetadataProvider.ts:215-241 | after the first pass a key has an entry exactly when it has a foreign-key row; the entry is the one its first such row made, listing the columns of all its foreign-key rows in row order |
| PgIndexes.IndexGrouping | src/server/services/database/plugins/postgresql/PostgreSQLMetadataProvider.ts:247-286 | after the second pass a key without index rows keeps its entry; a key with index rows lists their columns sorted by position, keeping its other fields or else taking them from its first index row |
| PgIndexes.IndexesOfKey | src/server/services/database/plugins/postgresql/PostgreSQLMetadataProvider.ts:215-288 | what `getIndexes` reports per key: a foreign key keeps type `FOREIGN KEY` and its foreign columns; any other key with index rows takes type, uniqueness (`non_unique` is not `t`), method and comment from its first index row and the last constraint type recorded under its name; a key with neither kind of row has no entry |
| PgIndexes.IndexColumnsOrdered | src/server/services/database/plugins/postgresql/PostgreSQLMetadataProvider.ts:253-261 | every entry's column list is sorted by ordinal position and holds exactly the columns of its index rows |
| PgIndexes.CollectKeys | src/server/services/database/plugins/postgresql/PostgreSQLMetadataProvider.ts:215-241 | the first loop records every row's constraint type under its key name, and builds the foreign-key entries that the first-pass specification describes |
| PgIndexes.GroupIndexes | src/server/services/database/plugins/postgresql/PostgreSQLMetadataProvider.ts:247-286 | the second loop, started from a copy of the foreign-key entries, produces the entries that the second-pass specification describes |
| PgIndexes.GetIndexes | src/server/services/database/plugins/postgresql/PostgreSQLMetadataProvider.ts:200-293 | a failure of either query gives `Failed to get indexes: ...`; otherwise the values of the two-pass map, in key order |
| Notebooks.EmptyNotebook | src/components/tabs/notebook-tab/NotebookTabView.tsx:26-27 | the empty notebook has no cells and is well formed |
| Notebooks.WithNewCell | src/components/tabs/notebook-tab/NotebookTabView.tsx:57-81 | the fresh id goes at the end of the list and maps to an empty, idle cell; other entries are unchanged |
| Notebooks.WithoutCell | src/components/tabs/notebook-tab/NotebookTabView.tsx:83-96 | the new list is the old one filtered by `Without`: every occurrence of the id leaves, the other ids keep their order and count, and an unlisted id leaves the list as it was; its entry is deleted, and no other entry changes |
| Notebooks.WithContent | src/components/tabs/notebook-tab/NotebookTabView.tsx:112-121 | the cell gets the new text and keeps its result, or gets `{ loading: false }` when it had no entry; the list and other cells are unchanged |
| Notebooks.WithResult | src/components/tabs/notebook-tab/NotebookTabView.tsx:123-132 | no entry means no change; otherwise only that cell's result is replaced |
| Notebooks.WithResultTwice | src/components/tabs/notebook-tab/NotebookTabView.tsx:139-142 | setting a cell's result twice leaves only the second, so `{ loading: true }` is overwritten by the finished result |
| Notebooks.Finished | src/components/tabs/notebook-tab/NotebookTabView.tsx:141-150 | a finished run is not loading; it holds the query's answer, or after a throw a failure with the error's message or `Failed to execute query.` and no rows |
| Notebooks.RanCellsEffect | src/components/tabs/notebook-tab/NotebookTabView.tsx:134-163 | running a list of cells one after the other (the evidently intended behaviour; see Findings) keeps the list and the stored ids; each run cell with data ends with its own query's finished result, and every other cell is untouched |
| Notebooks.RanNext | src/components/tabs/notebook-tab/NotebookTabView.tsx:159-162 | running the cells up to and including one more is running that one after the earlier ones |
| Notebooks.IndexOf | src/components/tabs/notebook-tab/NotebookTabView.tsx:100 | `indexOf` gives the first position of the id, or -1 exactly when it is not listed |
| Notebooks.Swap | src/components/tabs/notebook-tab/NotebookTabView.tsx:106-108 | exchanging two positions changes only those two |
| Notebooks.SpliceNeighbour | src/components/tabs/notebook-tab/NotebookTabView.tsx:106-108 | splicing an element out and back in one place up or down swaps it with that neighbour, keeping the list's elements |
| Notebooks.RemoveAt | src/components/tabs/notebook-tab/NotebookTabView.tsx:107 | `splice(i, 1)` on the array returns the element at `i` and shifts the later ones down |
| Notebooks.InsertAt | src/components/tabs/notebook-tab/NotebookTabView.tsx:108 | `splice(j, 0, x)` on the array shifts the elements from `j` up and puts `x` at `j` |
| Notebooks.SpliceMove | src/components/tabs/notebook-tab/NotebookTabView.tsx:106-108 | the two splices on a copied array swap the cell with its neighbour, a permutation of the list |
| Notebooks.SwapKeepsValid | src/components/tabs/notebook-tab/NotebookTabView.tsx:109 | reordering the list keeps every listed cell's data present |
| Notebooks.NotebookTab.InitData | src/components/tabs/notebook-tab/NotebookTabView.tsx:21-31 | a tab without data gets an empty notebook; a tab with data keeps it |
| Notebooks.NotebookTab.CreateNewCell | src/components/tabs/notebook-tab/NotebookTabView.tsx:57-81 | the tab's notebook, or an empty one when it has none, with the new cell appended |
| Notebooks.NotebookTab.RemoveCell | src/components/tabs/notebook-tab/NotebookTabView.tsx:83-96 | without data nothing happens; otherwise the cell is removed from the list and the map |
| Notebooks.NotebookTab.MoveCell | src/components/tabs/notebook-tab/NotebookTabView.tsx:98-110 | nothing happens without data, for an unlisted cell, or when the neighbour on that side does not exist; otherwise the cell is swapped with its neighbour and the map is untouched |
| Notebooks.NotebookTab.UpdateCellContent | src/components/tabs/notebook-tab/NotebookTabView.tsx:112-121 | without data nothing happens; otherwise the content is set as WithContent describes |
| Notebooks.NotebookTab.UpdateCellResult | src/components/tabs/notebook-tab/NotebookTabView.tsx:123-132 | without data nothing happens; otherwise the result is set as WithResult describes |
| Notebooks.NotebookTab.RunCell | src/components/tabs/notebook-tab/NotebookTabView.tsx:134-152 | without data or for a cell without data nothing happens; otherwise the cell passes through `{ loading: true }` and ends with its query's finished result |
| Notebooks.NotebookTab.RunCellAndBelow | src/components/tabs/notebook-tab/NotebookTabView.tsx:154-163 | an unlisted cell runs nothing; otherwise the cells from its first position to the end run one after the other, in list order, each run starting from the notebook the previous one left (the corrected behaviour; see Findings) |
| Notebooks.NotebookTab.RunCellAndBelowFromSnapshot | src/components/tabs/notebook-tab/NotebookTabView.tsx:33-163 | as written: every update is built from the notebook of the render that created the handler, so the tab ends as that notebook with only the last run cell's result |
| Notebooks.NotebookTab.RunFromSnapshot | src/components/tabs/notebook-tab/NotebookTabView.tsx:159-162 | as written, the loop from the start index to the end of the render's list leaves that notebook with the results the snapshot runs give |
| Notebooks.NotebookTab.RunCellFromSnapshot | src/components/tabs/notebook-tab/NotebookTabView.tsx:134-152 | as written, `runCell` of a render's handler: a cell without data there is not run; otherwise the tab becomes the render's notebook with that cell's finished result, whatever it held before |
| Notebooks.SnapshotLosesEarlierResult | src/components/tabs/notebook-tab/NotebookTabView.tsx:154-163 | for two new cells `a`, `b`, running from `a` as written leaves `a` idle, while running them one after the other leaves `a` with its finished result |
| DbTrees.FindIndex | src/components/sidebar/workspace/DbTreeView.tsx:68 | `findIndex` gives the first node with the parent's id, or -1 exactly when there is none |
| DbTrees.AddNodesExtends | src/components/sidebar/workspace/DbTreeView.tsx:66-76 | attaching nodes keeps every earlier node in its place with its id, name, parent and metadata, only adding children at the end; at most one node is appended per new node, each a new node |
| DbTrees.AddNodesAttached | src/components/sidebar/workspace/DbTreeView.tsx:68-75 | every appended node hangs under an earlier node that lists it as a child |
| DbTrees.OrphanDropped | src/components/sidebar/workspace/DbTreeView.tsx:68-69 | a node whose parent id is nowhere in the tree is dropped silently |
| DbTrees.ConnectionNodes | src/components/sidebar/workspace/DbTreeView.tsx:47-58 | one branch node per connection, with id the tree's length plus its index, parent 0, no children, and the connection's id and plugin id |
| DbTrees.ConnectionsUnderRoot | src/components/sidebar/workspace/DbTreeView.tsx:45-59 | in a tree with the root first, all connection nodes are appended in order and their ids added, in order, to the root's children |
| DbTrees.ConnectionIdsArePositions | src/components/sidebar/workspace/DbTreeView.tsx:50 | when every node's id is its position, that stays true after the connection nodes are added |
| DbTrees.DbTreeView.constructor | src/components/sidebar/workspace/DbTreeView.tsx:38-40 | the tree starts as the root alone (id 0, no parent, no children) with nothing loaded |
| DbTrees.DbTreeView.UpdateTreeData | src/components/sidebar/workspace/DbTreeView.tsx:63-79 | the new nodes are attached in order, each under the first node with its parent's id in the working list, which includes those added earlier in the batch |
| DbTrees.DbTreeView.ConnectionsUpdated | src/components/sidebar/workspace/DbTreeView.tsx:43-61 | nothing happens until the connections are known; then one connection node per connection is attached |
| DbTrees.DbTreeView.OnLoadData | src/components/sidebar/workspace/DbTreeView.tsx:81-93 | a childless node not yet recorded is appended to the loaded list and anything else changes nothing, so no id is ever recorded twice |
| ConnectionUrls.NatTextValue | src/components/sidebar/workspace/DbConnectionModalContent/PostgreSqlConnectionModal.tsx:68 | the digits the template literal writes for the port read back as the port |
| ConnectionUrls.PasswordMask | src/components/sidebar/workspace/DbConnectionModalContent/PostgreSqlConnectionModal.tsx:71 | no `:` segment without a password; otherwise `:` followed by one `*` per password character |
| ConnectionUrls.Preview | src/components/sidebar/workspace/DbConnectionModalContent/PostgreSqlConnectionModal.tsx:67-77 | the preview starts with the protocol and `://` |
| ConnectionUrls.PreviewPort | src/components/sidebar/workspace/DbConnectionModalContent/PostgreSqlConnectionModal.tsx:68-72 | for a non-negative port, the digits ending the preview before its database part read back as the form's port, or as 5432 when no user is shown and the port is zero |
| ConnectionUrls.PreviewShowsUser | src/components/sidebar/workspace/DbConnectionModalContent/PostgreSqlConnectionModal.tsx:68-73 | when protocol, host and database hold no `@`, the preview holds an `@` exactly when the type is `User & Password` and a user is given, and then the user follows the scheme directly |
| ConnectionUrls.PreviewHidesPassword | src/components/sidebar/workspace/DbConnectionModalContent/PostgreSqlConnectionModal.tsx:71 | the preview depends on the password only through its length: its text never shows |
| ConnectionUrls.PreviewDatabase | src/components/sidebar/workspace/DbConnectionModalContent/PostgreSqlConnectionModal.tsx:74-76 | a database adds `/` and its name at the very end and changes nothing else |
| ConnectionUrls.DefaultPreview | src/components/sidebar/workspace/DbConnectionModalContent/PostgreSqlConnectionModal.tsx:49-57 | with the default values the preview is `localhost:5432/postgres` after the protocol |
| ConnectionUrls.Errors | src/components/sidebar/workspace/DbConnectionModalContent/PostgreSqlConnectionModal.tsx:30-41 | the name is too short exactly below 2 characters and too long exactly above 50; the host is missing exactly when empty; the type is rejected exactly when it is neither listed value |
| ConnectionUrls.Accepted | src/components/sidebar/workspace/DbConnectionModalContent/PostgreSqlConnectionModal.tsx:30-41 | the form passes exactly when the name has 2 to 50 characters, a host is given, and the type is one of the two listed |
| ConnectionUrls.DefaultsNeedName | src/components/sidebar/workspace/DbConnectionModalContent/PostgreSqlConnectionModal.tsx:49-57 | the defaults fail only for the empty name, and pass once a name of 2 to 50 characters is given |

## Left out

- Database and driver I/O are parameters holding what each call returned or threw: `pool.connect`, `client.query`, and the plugins' `createConnection`, `getServerVersion` and `closeConnection`. The same goes for the notebook's `executeQuery`. Clients taken from the pool are never released in the source; that is an I/O matter and is not modelled.
- Asynchrony is modelled as sequential steps, one per `await`; races between calls are not modelled.
- Time and randomness are parameters. `Date.now() - startTime` is the `elapsed` argument, `createdAt` is a value the plugin supplies, and `crypto.randomUUID()` is the `newCellId` argument.
- `localeCompare`, `toUpperCase` and `toLowerCase` are function parameters, because their Unicode tables are not part of the model. The sort lemmas assume `localeCompare` is a consistent order.
- Strings are sequences of `char`, standing for UTF-16 code units. `length`, `slice` and `'*'.repeat` count them.
- Sorting.Sort: stability is built into the definition (stable insertion) and no separate stability theorem is stated.
- The order of `Object.values` on a plain record: the model uses insertion order. JavaScript lists integer-like keys first, and this is not modelled. Prototype keys such as `constructor` are also not modelled: a lookup of those names on `{}` is not `undefined`.
- The static `plugins` map and the static `instance` field are fields of one object each: `PluginRegistry` and `ConnectionManagerHolder`.
- The manager's `this._pluginRegistry` is modelled as the registry it is given. The file calls `PluginRegistry.getInstance()`, which does not exist on that class, and imports types that lack `connectionId`. The model follows the method bodies.
- React re-rendering is not modelled. The notebook operations read `props.tabData` as of the render that created them, and each hands `setTabData` a whole new value built from it. A single operation is modelled on the tab's data when it starts, which is the same thing. An edit made while `runCell` awaits its query is overwritten by the finished result; that interleaving is not modelled.
- RunCellAndBelow: states the evidently intended behaviour, each run keeping the results of the runs before it. The code as written loses them (see Findings); `RunCellAndBelowFromSnapshot` models that.
- RanCellsEffect: describes the corrected `runCellAndBelow`, not the code as written (see Findings).
- Notebooks: `execute` is one function of a cell's query text, so two cells with the same text get the same answer within a run. A database whose answers change between queries is not modelled.
- TestConnection: closes the test connection through the manager's map, as the source does. So the plugin never closes the test connection, and a live connection that happens to have the same id is closed instead. The model states this behaviour and does not claim the evidently intended close of the test connection itself.
- PgIndexes.IndexKind: `indexPrimary` and `nonUnique` are the row values as the code compares them, with `'t'`. Which JavaScript values the driver produces for SQL booleans is not part of this model. If it gives booleans, `=== 't'` never holds, and the code would then report no primary key and every index as unique.
- PgMetadata.Failure: `thrown` stands for the text `${error}` gives for the caught error. For an `Error` that is its name, `: ` and its message (`String(error)`), not `error.message` alone, which is what the connection manager uses.
- The other metadata getters (`getFunction`, `getProcedure`, `getTriggers`, `getTrigger`, `getSequences`, `getUsers`) only pass query rows through and are not modelled.
- ConnectionUrls.Message: the message the validation library gives for an unlisted authentication type is its own, so it is None here.
- The form's `port` is an integer. A `NaN` or fractional number from the number input is not modelled. `watchedPort || 5432` is modelled as the fallback for 0.
- `user` and `password` are `""` when undefined. Both reach the preview only when non-empty, so the two cases behave alike.
- DbTrees.DbTreeView.ConnectionsUpdated: each change of the connection list attaches a fresh node for every connection, including ones already in the tree. The source does this too, and the model keeps it.
- `loadingNodes` in the tree view is never updated by the code shown, and is not modelled.
- Logging (`console.log` and the warnings of the connection manager and metadata provider) is not modelled.
- Splitting a script and re-joining its statements with `;` does not always give the same statements back. For example, `a;b;` gives `a;` and `b;`, and re-joining those gives `a;;b;`, which yields a lone `;`. The model follows the code and states no such property.

## Findings

| source | as written | input that shows it | evidently intended | confidence | as-written member | corrected member |
|---|---|---|---|---|---|---|
| src/components/tabs/notebook-tab/NotebookTabView.tsx:33-163 | `runCellAndBelow`, `runCell`, `updateCellResult` and `setCellData` all read `props.tabData` of the render that created the handler, and each `setTabData` call passes a whole notebook built from it; so each run replaces the previous run's result with the snapshot's | two new cells `a`, `b`, run from `a`: `a` ends idle, only `b` keeps a result | each run starts from the notebook the previous run left, so every run cell keeps its result | not executed | Notebooks.NotebookTab.RunCellAndBelowFromSnapshot, Notebooks.SnapshotLosesEarlierResult | Notebooks.NotebookTab.RunCellAndBelow, Notebooks.RanCellsEffect |
