# Join-path search over a database schema

This project models the core of a database assistant that finds how to join tables. It has two parts:

- `table_entities.py`: the schema records (`Columns`, `ForeignKeys`, `Table`) and what is computed on them:
  - `Table.get_primary_keys`;
  - the text rendering of a column and of a table;
  - the pure post-processing the catalog loaders apply to the database's rows. They build the columns dict, mark primary keys, and group foreign-key rows into `defaultdict(list)`s.
- `schema_djikstra.py`: the join-path search (`DjikstraNodes`, `Djikstra`, `create_djikstra`, `build_djikstra`).

The search is documented as a shortest-path search. It is actually a recursive depth-first expansion:

- a `history` dict marks each expanded table;
- a `shortest_path` dict holds one entry per table;
- an entry is replaced only by a strictly lighter candidate.

The class name and the docstrings promise a shortest-path search. The code is a depth-first expansion whose strict `>` test against the `-1` sentinel never records a non-start table; this model follows the code (see "## Findings").

Modules:

- `Wrappers` (`wrappers.dfy`): `Option` and `Result`.
- `TableEntities` (`table_entities.dfy`): records, rendering and loader post-processing.
  - Python dicts become insertion-ordered sequences.
  - The columns dict is a `seq<Column>` with unique field names.
  - A foreign-key dict is a `seq<(string, seq<ForeignKey>)>`.
- `SchemaDjikstra` (`schema_djikstra.dfy`): the search.
  - `Djikstra` is a class whose map fields `history`, `graph` and `shortestPath` are updated in place.
  - `build_djikstra` is the recursive method `BuildDjikstra`. Its loop over the candidates is split into `ExpandAll` (the loop) and `ExpandCandidate` (one iteration: the replacement test, then the recursive call).
  - A dict lookup of an unknown table raises a KeyError in the source. Here it is an error result (`KeyError(key)`), not a precondition.
  - The class has a constant `sentinelAware`. `false` is the replacement test as written. `true` is the corrected test used in "## Findings".

The search state carries ghost facts:

- the recursion depth equals the weight of the node being expanded;
- depth plus the termination measure (`2 * |unexpanded tables| + (1 if the current table is already expanded)`) never exceeds twice the number of tables;
- every expanded table is reachable from the start table (a path of foreign keys, in either direction);
- a KeyError names a table outside the graph that a key of a reachable table leads to;
- on success, the expanded tables are closed under neighbours.

Together these give the main theorems: the search succeeds exactly when the start table is an input table and every key of every table reachable from it leads to an input table; and on success a table is expanded exactly when it is reachable from the start table.

Other behaviour of the code that the model keeps:

- The empty-list check is `len(tables_needed) < 1`, but its message asks for "at least, 2 tables". The model keeps both as written.
- Only the first needed table is used.
- `ForeignKeys.__str__` reads an attribute the record never defines. So `str(table)` raises as soon as any foreign-key list of the table is non-empty. It renders only when every list is empty.
- `references_to_table` is never rendered.

## Model

| member | source | states |
|---|---|---|
| TableEntities.GetPrimaryKeys | table_entities.py:41-47 | returns the columns whose primary-key flag is set, in dict order: a column is returned exactly when it is one of the table's columns and is flagged |
| TableEntities.PrimaryKeysMembers | table_entities.py:41-47 | the primary-key selection holds exactly the flagged columns and is never longer than the columns |
| TableEntities.PrimaryKeysAppend | table_entities.py:43-45 | the selection keeps order: selecting from a concatenation is the concatenation of the selections |
| TableEntities.NatToStringValue | table_entities.py:69 | the decimal text of a natural number spells it: its digits read as a number give it back, with no leading zero |
| TableEntities.IntToStringValue | table_entities.py:69 | the text of the row count spells it: a minus sign exactly when it is negative, then the digits of its magnitude |
| TableEntities.ColumnLinesAppend | table_entities.py:51-52 | the column section of a dict's concatenation is the concatenation of the sections, one tab-indented `Column: name - type` line per column in order |
| TableEntities.PrimaryKeyLinesMatchPrimaryKeys | table_entities.py:63-67 | the primary-key section names exactly the columns get_primary_keys returns, in the same order |
| TableEntities.ForeignKeySection | table_entities.py:54-61 | the foreign-key section renders exactly when every list is empty, as one fixed "no foreign keys" line per entry; otherwise it fails with the missing-attribute error of ForeignKeys.__str__ |
| TableEntities.TableTextLayout | table_entities.py:49-71 | str(table) succeeds exactly when every foreign-key list is empty, fails with the missing-attribute error otherwise, and on success is the header, the column lines, one fixed line per foreign-key entry, the lines of get_primary_keys and the row-count line |
| TableEntities.TableToString | table_entities.py:49-71 | the string built section by section is the table text above, or its error |
| TableEntities.RenderColumnLines | table_entities.py:51-52 | the column loop produces the column section |
| TableEntities.RenderForeignKeySection | table_entities.py:56-61 | the foreign-key loop produces the foreign-key section and stops at the first foreign key it renders |
| TableEntities.RenderPrimaryKeyLines | table_entities.py:65-67 | the primary-key loop produces one line per flagged column |
| TableEntities.IndexOfColumn | table_entities.py:261 | the position of a field name in the columns dict when present, and absence exactly when no column has that name |
| TableEntities.PutColumn | table_entities.py:224 | `columns[name] = column` keeps names unique; an existing name keeps its position and takes the new column while every other position is unchanged; a new name goes at the end |
| TableEntities.ColumnsOf | table_entities.py:219-224 | the dict built from the column rows has unique names and no primary-key flag set |
| TableEntities.ColumnsOfOrder | table_entities.py:219-224 | every column of that dict has a row, and the columns come in the order of their names' first rows, as dict insertion order keeps them |
| TableEntities.ColumnsOfRepeatedName | table_entities.py:219-224 | rows a:int, b:int, a:text give the columns a:text then b:int: a repeated name keeps its first place and takes its last data type |
| TableEntities.ColumnsOfFromLastRow | table_entities.py:219-224 | every column comes from a row, and from the last row with its name (later rows overwrite earlier ones) |
| TableEntities.ColumnsOfCoversRows | table_entities.py:219-224 | every row's name has a column |
| TableEntities.BuildColumns | table_entities.py:219-224 | the row loop builds that dict |
| TableEntities.MarkPrimaryKeys | table_entities.py:256-262 | marking sets a column's flag exactly when its name is a primary-key name, ignores names without a column, and changes nothing else |
| TableEntities.LoadedPrimaryKeys | table_entities.py:219-262 | after loading, get_primary_keys returns exactly the loaded columns whose name is a primary-key name |
| TableEntities.LoadedPrimaryKeyNames | table_entities.py:219-262 | after loading, every primary-key name that has a column row names a column get_primary_keys returns |
| TableEntities.KeyIndex | table_entities.py:139 | the position of a key in a foreign-key dict when present, and absence exactly when no entry has it |
| TableEntities.GroupOutgoing | table_entities.py:184-191 | the table's own foreign keys form no entry for no rows, otherwise one entry under the table's own name holding one key per row in row order, each with the table as referencing table |
| TableEntities.GroupIncoming | table_entities.py:132-139 | the keys pointing at the table form no entry for no rows, otherwise one entry under the table's own name holding one key per row in row order |
| SchemaDjikstra.Index | schema_djikstra.py:36-39 | every key of the graph maps to a table of that name |
| SchemaDjikstra.IndexLastWins | schema_djikstra.py:36-39 | every input table's name is a key, and each key maps to the last input table with that name |
| SchemaDjikstra.IndexTables | schema_djikstra.py:32-39 | the indexing loop gives that graph, every history flag False and every entry the default one (weight -1, no table, no key) |
| SchemaDjikstra.ReachableStep | schema_djikstra.py:90-94 | a neighbour of a reachable table is reachable |
| SchemaDjikstra.ClosedSetHoldsPaths | schema_djikstra.py:90-94 | a set of tables that holds a path's first table and is closed under neighbours holds the whole path |
| SchemaDjikstra.CollectFails | schema_djikstra.py:64-74 | collecting from a key list fails exactly when some key leads to a table missing from the history, and then with the first such table |
| SchemaDjikstra.CollectNodes | schema_djikstra.py:64-74 | on success the candidates are exactly the keys leading to unexpanded tables, each one step heavier |
| SchemaDjikstra.CollectErrExtends | schema_djikstra.py:64-74 | once a prefix of the keys fails, the whole list fails with the same missing table |
| SchemaDjikstra.CandidatesFail | schema_djikstra.py:62-86 | a table's candidates fail exactly when one of its neighbours is missing from the history, and then with such a neighbour |
| SchemaDjikstra.CandidatesFound | schema_djikstra.py:62-86 | on success each candidate is an unexpanded neighbour, one step heavier, with the key it is reached by; every unexpanded neighbour has one; candidates from foreign keys come before those from references |
| SchemaDjikstra.CollectCandidates | schema_djikstra.py:62-86 | the two collection loops compute those candidates |
| SchemaDjikstra.CollectFrom | schema_djikstra.py:64-74 | the nested loop over a dict's entries and their keys collects from all its keys in order, stopping at the first missing table |
| SchemaDjikstra.CollectFromStops | schema_djikstra.py:64-66 | a KeyError on one key is the error of the whole dict |
| SchemaDjikstra.MeasureDecreases | schema_djikstra.py:88-94 | the termination measure strictly drops from a table to each of its candidates |
| SchemaDjikstra.ReplaceStep | schema_djikstra.py:91-92 | the replacement test keeps kept weights, gives a changed entry to the candidate's own table, never replaces an entry no heavier than the current depth under the test as written, and records the candidate under the corrected test |
| SchemaDjikstra.KeptAfterChild | schema_djikstra.py:91-94 | a replacement followed by the candidate's recursive expansion keeps what the parent call promises |
| SchemaDjikstra.ExpandStep | schema_djikstra.py:90-94 | one iteration of the result loop keeps the loop's invariants |
| SchemaDjikstra.CandidatesCover | schema_djikstra.py:62-94 | once every candidate is expanded, every neighbour of the table is expanded |
| SchemaDjikstra.Djikstra.constructor | schema_djikstra.py:51-55 | the search state holds the given history, graph and result |
| SchemaDjikstra.Djikstra.BuildDjikstra | schema_djikstra.py:61-94 | flags only go from False to True; the graph and the result's tables stay the same; expanded tables stay reachable; a changed entry names its table and records a foreign key of the graph leading to it; a missing table is reported as a KeyError only for a table outside the graph that a key of a reachable table leads to, and never when every key leads into the graph; under the test as written, a result whose weights are at most the current depth is left unchanged; on success the table and its neighbours are expanded, as are the neighbours of every table expanded on the way |
| SchemaDjikstra.Djikstra.ExpandAll | schema_djikstra.py:90-94 | the result loop expands every candidate in order, stopping at the first KeyError, and keeps the search invariants |
| SchemaDjikstra.Djikstra.ExpandCandidate | schema_djikstra.py:91-94 | one iteration: the replacement test on the candidate's table, then its expansion, which keeps the search invariants and expands the candidate |
| SchemaDjikstra.SearchStarts | schema_djikstra.py:44-57 | the seeded state meets the first call's requirements: the start is reachable and no table is expanded |
| SchemaDjikstra.SearchEnds | schema_djikstra.py:57-58 | after a successful search the expanded tables are exactly those reachable from the start, every key of a reachable table leads into the graph, the start entry is the seeded one, every table with a non-negative weight is expanded, and under the corrected test every other expanded table records the key it was reached by |
| SchemaDjikstra.Search | schema_djikstra.py:27-58 | for an empty needed list, the error string and nothing else; otherwise success exactly when the start table is in the graph and every key of every table reachable from it leads into the graph; a KeyError names a table outside the graph that is the start table or that a key of a reachable table leads to; on success one entry per input table, the start entry is the seeded one, the expanded tables are exactly those reachable from the start, non-negative weights only on expanded tables, and under the corrected test every other expanded table records the key it was reached by |
| SchemaDjikstra.CreateDjikstra | schema_djikstra.py:27-58 | create_djikstra as written: the error string for an empty needed list; success exactly when the start table is an input table and every key of every table reachable from it leads to an input table, and otherwise a KeyError for the start table or for a table such a key leads to; on success the start entry is the seeded one and every other entry keeps the default, though exactly the reachable tables are expanded |
| SchemaDjikstra.CreateDjikstraCorrected | schema_djikstra.py:27-58 | with the corrected replacement test: the same error cases, in both directions, as create_djikstra; on success the start entry is the seeded one, a table has a non-negative weight exactly when it is reachable from the start, and every other reachable table names itself and records a foreign key of the graph that leads to it |
| SchemaDjikstra.OrdersAndCustomersGraph | schema_djikstra.py:64-86 | in the two-table schema orders → customers, each table is the other's only neighbour, every key leads into the graph, and customers is reachable from orders |
| SchemaDjikstra.ReachableTableLeftUnvisited | schema_djikstra.py:91-92 | on that schema, starting from orders, the search as written succeeds but leaves the reachable customers at the default entry |
| SchemaDjikstra.ReachableTableRecorded | schema_djikstra.py:91-92 | on that schema the corrected test gives customers a non-negative weight and records the schema's one key, orders.customer_id → customers.id |

## Left out

- Database access:
  - the catalog queries (`fetch_table_columns`, `fetch_table_foreign_keys`, `fetch_references_to_table`, `fetch_table_row_amount`, `fetch_schema_tables`);
  - `execute_query`, the psycopg2 connection, rollback and the `RuntimeError` wrapping.
  - This is I/O. The rows the queries return are parameters of `BuildColumns`, `MarkPrimaryKeys`, `GroupOutgoing` and `GroupIncoming`.
- The `@tool` decorators, environment variables and the agent framework around the tools are not modelled. `main.py` and `pg_vectorization.py` are not part of this model.
- `ForeignKeys.__str__` is modelled only as the error it always raises. The `is_reference` attribute it reads is never defined, so the text of its one branch is never produced.
- Python's recursion limit: a long enough chain of tables makes the source raise `RecursionError`, and the model's recursion is unbounded.
- The key order of the `shortest_path` dict: the result is a `map`. The dict's order is the order in which table names first occur in the input.
- The source sets the primary-key flag on the shared `Columns` object in place. The model rebuilds the column value; no other reference to it exists in the loader.
- When the start table is not an input table, the source adds a result entry for it and then raises `KeyError`. When a later lookup raises, the search state is partly updated. The model returns the error and drops the state, as the exception does.
- SchemaDjikstra.CreateDjikstraCorrected: states which tables get a non-negative weight and that each records a key of the graph leading to it, not that a weight is the number of hops on a shortest join path nor that the recorded key belongs to a table already expanded. A weight is one more than the depth of the call that offered the candidate. That is the depth of the call that expands it, and the length of some join path from the start. The history is consulted only when a table's candidate list is collected. The result loop then expands every listed candidate, even one expanded in the meantime. So a table can be offered again and its weight lowered, but tables first reached through a longer path can keep the longer weight. For example, take S with keys to A and then C, plus A→B, B→T and C→T. T is expanded at depth 3 via S→A→B→T. The later S→C offer lowers C to 1 and expands C again, but T stays at 3 although S→C→T has length 2.

## Findings

| source | as written | input that shows it | evidently intended | confidence | as-written member | corrected member |
|---|---|---|---|---|---|---|
| schema_djikstra.py:91-92 | an entry is replaced only when its stored weight is strictly greater than the candidate's; every table starts at weight -1 and every candidate weighs at least 1, so no entry except the start's is ever replaced | tables `orders` and `customers`, where `orders.customer_id` references `customers.id`; needed tables `["orders"]`: `customers` is expanded, but its entry stays at weight -1 with no foreign key | an entry still at the default weight is replaced by its first candidate, so every table reachable from the start records the key it was reached by | not executed | SchemaDjikstra.ReachableTableLeftUnvisited | SchemaDjikstra.CreateDjikstraCorrected |
