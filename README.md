# Relational-to-graph ETL: a Dafny model of its core

This project models the core of `ETL/etl_script.py`, the script that turns a
relational database into a property graph. It has two halves:

- **Mapping inference** (`generate_initial_config`). Every table that fails
  the link-table test becomes a node mapping: a PascalCase label, an identity
  property map and the table's primary key. A foreign key that leaves an
  entity table becomes a direct `HAS_<TO>` relationship. A keyless table with
  at least two outgoing foreign keys becomes one link relationship between
  the targets of its first two keys. The model builds the mapping and leaves
  out the JSON file write.
- **The import** (`Neo4jImporter.import_data`, `_merge_nodes_batch`,
  `_merge_rels_batch`). Rows are read table by table and converted by
  `convert_value_for_neo4j`. They are buffered and flushed to the store in
  batches of `batch_size` = 1000: every node mapping first, then every
  relationship mapping.

The graph store is abstract. A node is keyed by (label, key property, key
value). A batch of nodes is a sequence of upserts: `MERGE` finds or creates
the node, then `SET n += map` overlays the row, where a null value removes
the property. A batch of relationships is a sequence of create-if-absent
writes. A write happens only when both `MATCH` clauses find a node, and an
existing relationship keeps its properties.

Modules, one per component:

| file | module | what it holds |
|---|---|---|
| `wrappers.dfy` | `Wrappers` | `Option` |
| `collections.dfy` | `Collections` | `set(xs)`, `len(set(xs))`, `[f(x) for x in xs]` |
| `text.dfy` | `Text` | `str.split`, `str.join`, ASCII `upper`, `lower` and `capitalize`, the PascalCase label |
| `schema.dfy` | `Schema` | the extracted schema: tables, primary keys, foreign keys, the link-table test |
| `mapping.dfy` | `Mapping` | node and relationship mappings, the identity property map |
| `inference.dfy` | `Inference` | `generate_initial_config`: the mapping as functions, and the two loops as methods proved equal to them |
| `values.dfy` | `Values` | driver values, `isoformat`, `convert_value_for_neo4j` |
| `rows.dfy` | `Rows` | `{prop: convert(row.get(col)) ...}` |
| `batching.dfy` | `Batching` | batch boundaries of the streaming loops |
| `graph.dfy` | `GraphStore` | the store and the semantics of the two batch queries |
| `plan.dfy` | `ImportPlan` | the trace of `import_data`: the batches it sends, in order, and how the run ends |
| `importer.dfy` | `Importer` | class `Neo4jImporter` |

The class keeps the store (`graph`), the batch size, and two ghost fields:
the store as `connect` found it (`origin`) and the batches sent since
(`flushes`). Its invariant is that the store is `origin` with `flushes`
applied in order. Each streaming method is proved to send exactly the
batches the trace functions predict. `ImportData` is proved to leave the
store as the trace of the import applied to the starting store. The
properties of that trace are lemmas in `ImportPlan`:

- phase order and batch sizes;
- abort behaviour;
- idempotence;
- the store invariant.

## Model

| member | source | states |
|---|---|---|
| `Schema.PrimaryKeyOf` | ETL/etl_script.py:68-75 | the key is None exactly when the PRIMARY KEY query returns no row; otherwise it is one of the key's columns (the first row, so a composite key yields a column, not None) |
| `Schema.OutgoingMembers` | ETL/etl_script.py:137-137 | the related foreign keys of a table are exactly the foreign keys whose `from_table` is that table |
| `Schema.FkColumnsMembers` | ETL/etl_script.py:117-117 | a column is among the foreign-key columns of a table iff some foreign key leaving the table starts at it |
| `Schema.IsLinkTable` | ETL/etl_script.py:117-121 | the link-table test: a link table has no primary key and no more columns than foreign keys leaving it (the full meaning of the count test is stated by the three rows below) |
| `Collections.DistinctCountIsCardinality` | ETL/etl_script.py:119-119 | `len(set(fk_columns))`, counted left to right, is the number of distinct foreign-key columns |
| `Schema.LinkTestIsCoverage` | ETL/etl_script.py:119-121 | when a table's columns are distinct and every outgoing foreign key starts at one of them, the count test holds iff there is no primary key and the foreign keys cover every column |
| `Schema.LinkTestCountsOnly` | ETL/etl_script.py:119-121 | the test compares counts only: a keyless two-column table that two foreign keys leave from two other columns is still classed as a link table |
| `Schema.KeyedTableIsEntity` | ETL/etl_script.py:119-119 | a table with a primary key is never a link table |
| `Schema.ColumnsOf` | ETL/etl_script.py:141-141 | the columns of the first table of that name, or the empty list when there is none |
| `Mapping.IdentityMapFacts` | ETL/etl_script.py:126-126 | `IdentityMap`, the model of `{col: col for col in cols}`, maps each column to itself, holds exactly the columns, each once, and keeps their order when they are distinct |
| `Text.Split` | ETL/etl_script.py:272-273 | the split is never empty, no part holds the separator, and joining the parts gives the text back |
| `Text.SplitJoin` | ETL/etl_script.py:272-273 | splitting a join of separator-free words gives the words back |
| `Text.DottedRoundTrip` | ETL/etl_script.py:272-273 | `"table.column"` splits back into `[table, column]` when neither name holds a dot |
| `Text.DottedTableIsCut` | ETL/etl_script.py:272-272 | a table name with a dot does not survive: `"db.t.c"` yields the table name `"db"` |
| `Text.Upper` | ETL/etl_script.py:147-147 | the model's `upper()`: same length, each ASCII lower-case letter upper-cased, every other character unchanged (ASCII only, see Left out) |
| `Text.Lower` | ETL/etl_script.py:125-125 | the model's `lower()`: same length, each ASCII upper-case letter lower-cased, every other character unchanged (ASCII only, see Left out) |
| `Text.Capitalize` | ETL/etl_script.py:125-125 | the model's `capitalize()`: same length, the first character upper-cased and the rest lower-cased, on ASCII letters (see Left out) |
| `Text.PascalCase` | ETL/etl_script.py:125-125 | `''.join(w.capitalize() for w in name.split('_'))`: the node label holds no underscore |
| `Text.PascalCaseSpelling` | ETL/etl_script.py:125-125 | up to letter case, the label spells the table name without its underscores |
| `Text.PascalCaseWords` | ETL/etl_script.py:125-125 | the label of an underscore-joined name is the concatenation of its capitalized words |
| `Text.PascalCaseFoundedBy` | ETL/etl_script.py:125-125 | `founded_by` gets the label `FoundedBy` |
| `Inference.RelTypeFor` | ETL/etl_script.py:157-157 | the relationship type is `HAS_` followed by the upper-cased target table name |
| `Inference.NonKeyColumns` | ETL/etl_script.py:143-143 | a column is a link property iff it is a column of the link table that no related foreign key starts from |
| `Inference.EntityTablesMembers` | ETL/etl_script.py:116-121 | the tables kept by the node pass among the first `k` are exactly those that fail the link-table test |
| `Inference.NodeMappingsMembers` | ETL/etl_script.py:116-129 | a node mapping is produced iff it is the mapping of some table that fails the link-table test |
| `Inference.NodeSourceIffEntity` | ETL/etl_script.py:132-134 | `from_table_is_entity` holds iff some table of that name fails the link-table test |
| `Inference.NodeMappingContents` | ETL/etl_script.py:123-128 | `NodeFor` gives each node mapping its table as source, that table's primary key, the identity map over exactly its columns, and a label with no underscore that spells the table name up to case |
| `Inference.DirectRelationships` | ETL/etl_script.py:154-163 | the direct mappings are one per foreign key leaving an entity table, in foreign-key order with duplicates kept, and none for a foreign key leaving any other table |
| `Inference.DirectSourceKeyRoundTrip` | ETL/etl_script.py:156-156 | the `source_foreign_key` that `DirectFor` writes splits back into its table and column |
| `Inference.LinkPresence` | ETL/etl_script.py:136-153 | among the first `k` foreign keys, a link mapping for a table is produced iff the table is a non-entity with at least two outgoing foreign keys and one of those `k` keys leaves it |
| `Inference.LinkShape` | ETL/etl_script.py:145-151 | every link mapping comes from a non-entity with at least two outgoing foreign keys and is the one built from that table's first two keys |
| `Inference.LinkUnique` | ETL/etl_script.py:152-153 | no two link mappings come from the same link table |
| `Inference.LinkRelationships` | ETL/etl_script.py:136-153 | over the whole schema: a link mapping exists iff the table qualifies as above, it is that table's mapping, and it is unique |
| `Inference.LinkForContents` | ETL/etl_script.py:139-151 | `LinkFor`: the endpoints are the targets of the first and second related foreign key in list order, the type names the second, and the properties are the columns no foreign key of the table starts from |
| `Inference.LinkAlreadyListed` | ETL/etl_script.py:152-152 | the "already listed" test holds iff an earlier foreign key leaves the same link table |
| `Inference.LinkTest` | ETL/etl_script.py:117-119 | the count comparison computed in the loop is the link-table test |
| `Inference.NodesStep` | ETL/etl_script.py:116-129 | one more table appends its node mapping exactly when it fails the link-table test |
| `Inference.InferNodes` | ETL/etl_script.py:116-129 | the node loop yields the node mappings, in table order |
| `Inference.InferRelationships` | ETL/etl_script.py:131-163 | the foreign-key loop yields the relationship mappings: direct mappings, plus link mappings not already listed |
| `Inference.GenerateInitialConfig` | ETL/etl_script.py:109-163 | the config is the node pass followed by the relationship pass |
| `Values.Convert` | ETL/etl_script.py:173-182 | a decimal becomes the float of its value; a date or datetime becomes a text that parses back to it; null stays null; every other value is returned unchanged; the result is always store-neutral |
| `Values.ConvertIdempotent` | ETL/etl_script.py:173-182 | converting a converted value changes nothing |
| `Values.IsoDateRoundTrip` | ETL/etl_script.py:179-180 | the `YYYY-MM-DD` text of a date parses back to the date |
| `Values.IsoTimeRoundTrip` | ETL/etl_script.py:179-180 | the `HH:MM:SS[.ffffff]` text parses back to the time; the fraction appears only when microseconds are non-zero |
| `Values.IsoDateTimeRoundTrip` | ETL/etl_script.py:179-180 | the `YYYY-MM-DDTHH:MM:SS[.ffffff]` text parses back to the date and time |
| `Values.ConvertDecimalExample` | ETL/etl_script.py:177-178 | the decimal `12.50` converts to the float `12.5` |
| `Values.ConvertDateExample` | ETL/etl_script.py:179-180 | the date 2024-01-05 converts to `"2024-01-05"` |
| `Rows.BuildProps` | ETL/etl_script.py:235-238 | the property map's keys are exactly the mapping's property names, and every value is store-neutral |
| `Rows.BuildPropsLastWins` | ETL/etl_script.py:235-238 | a property holds the converted value of the last column mapped to it |
| `Rows.BuildPropsIdentity` | ETL/etl_script.py:235-238 | with an identity mapping, the properties are exactly the columns, each holding its converted value, or null when the row lacks it |
| `Batching.BatchesShape` | ETL/etl_script.py:233-248 | `Batches`: every batch holds 1 to `n` rows, all but the last hold exactly `n`, and the batches concatenate back to the row stream |
| `Batching.BatchesUnique` | ETL/etl_script.py:233-248 | those three properties determine the batches |
| `Batching.BufferStep` | ETL/etl_script.py:239-244 | appending a row keeps the flushed batches plus the buffer equal to the rows read, and a buffer that reaches `n` rows is a full batch |
| `Batching.BatchesOfFlushed` | ETL/etl_script.py:246-248 | full batches already flushed plus a final non-empty rest are the batches of the whole stream |
| `GraphStore.OverlayCompose` | ETL/etl_script.py:337-337 | two successive `SET n += m` are one write of the merged maps, the later keys winning |
| `GraphStore.OverlayIdempotent` | ETL/etl_script.py:337-337 | writing the same properties twice is writing them once |
| `GraphStore.OverlayFrame` | ETL/etl_script.py:337-337 | `Overlay`, the model of `SET n += map`, is fully described: a key absent from the row is kept, a non-null one is overwritten, a null one is removed, and no other key appears |
| `GraphStore.ValidRows` | ETL/etl_script.py:330-330 | the kept rows are exactly the rows with a non-null value for the key property |
| `GraphStore.ValidRowsConcat` | ETL/etl_script.py:330-330 | keeping rows commutes with cutting the batch in two, so the kept rows stay in batch order |
| `GraphStore.Upserts` | ETL/etl_script.py:335-337 | one upsert per kept row, in order, keyed by (label, key property, the row's key value) |
| `GraphStore.BatchUpserts` | ETL/etl_script.py:330-338 | one upsert per kept row, in batch order; each comes from a keyable row of the batch, under that row's key |
| `GraphStore.MergeNodes` | ETL/etl_script.py:324-342 | `_merge_nodes_batch` on the store: relationships are untouched and no node disappears |
| `GraphStore.UpsertRowsIsUpserts` | ETL/etl_script.py:334-338 | `UNWIND` taking the keyable rows one at a time, each `MERGE` then `SET n += map`, is the batch's list of upserts applied in order |
| `GraphStore.ApplyUpsertsResult` | ETL/etl_script.py:335-337 | after the upserts, the nodes are the old ones plus those keyed; a keyed node holds its old properties overlaid with its rows; other nodes are unchanged |
| `GraphStore.ApplyUpsertsIdempotent` | ETL/etl_script.py:335-337 | applying the same upserts twice gives the store that applying them once gives |
| `GraphStore.NodeLaterRowWins` | ETL/etl_script.py:335-337 | a property written by a row and by no later row of the same node ends with that row's value, or is removed if the value is null |
| `GraphStore.MergeNodesLaterRowWins` | ETL/etl_script.py:330-337 | within one node batch, a property set by row `j` and by no later row with the same key value ends with row `j`'s value on that node, or is removed when that value is null |
| `GraphStore.MergeNodesNothingToKey` | ETL/etl_script.py:326-332 | an empty batch, a mapping without a key property, or a batch with no keyable row leaves the store as it was |
| `GraphStore.MergeNodesIdempotent` | ETL/etl_script.py:324-338 | merging a node batch twice gives the store that merging it once gives |
| `GraphStore.MergeNodesFrame` | ETL/etl_script.py:334-338 | relationships and nodes of another label or key property are untouched, no node disappears, and every keyable row has its node |
| `GraphStore.CreatesMembers` | ETL/etl_script.py:350-353 | the relationship writes of a batch are exactly those of its rows whose two endpoints match existing nodes |
| `GraphStore.MergeRels` | ETL/etl_script.py:344-359 | `_merge_rels_batch` on the store: nodes are untouched and no relationship disappears |
| `GraphStore.DropNulls` | ETL/etl_script.py:354-354 | `SET r = map.props` keeps exactly the non-null properties |
| `GraphStore.ApplyCreatesResult` | ETL/etl_script.py:353-354 | the relationships after the writes are the old ones plus the new keys, and existing ones keep their properties |
| `GraphStore.FirstCreateWins` | ETL/etl_script.py:353-354 | a new relationship gets the properties of the first row that creates it |
| `GraphStore.ApplyCreatesIdempotent` | ETL/etl_script.py:353-354 | applying the same writes twice gives the store that applying them once gives |
| `GraphStore.MergeRelsIdempotent` | ETL/etl_script.py:344-355 | merging a relationship batch twice gives the store that merging it once gives |
| `GraphStore.MergeRelsResult` | ETL/etl_script.py:344-355 | nodes are unchanged and existing relationships keep their properties; each new relationship joins two existing nodes and comes from a matching row; every matching row's relationship exists |
| `GraphStore.UnconvertedEndpointNeverMatches` | ETL/etl_script.py:278-283 | endpoint ids are not converted, so a row whose id is a decimal or date never matches a node keyed by a converted value and creates nothing |
| `GraphStore.MergeRelsNoProps` | ETL/etl_script.py:350-354 | a batch whose rows carry no properties creates the relationship of every row whose endpoints match and are not yet joined, and each relationship it creates has no properties |
| `GraphStore.MergeRelsWithoutProps` | ETL/etl_script.py:344-359 | the batch as written for rows without a `props` entry, on a store that rejects `SET r = null`: it fails exactly when some row would create a relationship, and a batch that does not fail leaves the store as `MergeRels` would, that is, unchanged |
| `GraphStore.NullPropsBatchFails` | ETL/etl_script.py:280-283 | one order row whose customer exists: the batch as written fails, while the model with empty properties creates the `HAS_CUSTOMERS` relationship without properties |
| `GraphStore.MergeNodesWellFormed` | ETL/etl_script.py:324-338 | merging converted rows keeps every node holding its non-null converted key value and no null property |
| `GraphStore.MergeRelsWellFormed` | ETL/etl_script.py:344-355 | merging relationships keeps every relationship between two existing nodes |
| `ImportPlan.FindNodeFirst` | ETL/etl_script.py:259-260 | the endpoint lookup fails exactly when no node mapping has that source table, and otherwise returns the first that does |
| `ImportPlan.FkColumnForFound` | ETL/etl_script.py:293-294 | the link column lookup fails exactly when no foreign key goes from the link table to the endpoint table, and otherwise returns the `from_column` of the first one that does, as `next(...)` does |
| `ImportPlan.RelRows` | ETL/etl_script.py:279-283 | one relationship row per source row |
| `ImportPlan.DirectRowsCreate` | ETL/etl_script.py:278-288 | a direct mapping's batch, whose rows carry an empty property map, creates the relationship of each row whose endpoints match and are not yet joined, with no properties |
| `ImportPlan.PlanRelSkipped` | ETL/etl_script.py:259-298 | `PlanRel` skips a relationship mapping iff an endpoint table has no node mapping, or it is a link mapping and a link column is missing or empty |
| `ImportPlan.PlannedEnds` | ETL/etl_script.py:259-269 | a planned mapping uses the labels and key properties of existing node mappings of its endpoint tables, and its own type |
| `ImportPlan.DirectKeyWithoutDotFails` | ETL/etl_script.py:271-273 | a direct mapping whose key has no dot fails the run |
| `ImportPlan.DirectKeyReadsItsColumn` | ETL/etl_script.py:271-276 | the direct mapping that inference writes for a foreign key reads that key's own table and column |
| `ImportPlan.SelfLinkJoinsNodeToItself` | ETL/etl_script.py:293-311 | a link table whose two endpoints are the same table reads one column for both ends, so every row joins a node to itself |
| `ImportPlan.PlanFlushes` | ETL/etl_script.py:262-298 | a skipped or failed mapping sends nothing; a planned one sends only relationship batches between its endpoints |
| `ImportPlan.NodePhaseShape` | ETL/etl_script.py:224-250 | every batch of the node phase is a node batch of 1 to `n` converted property maps |
| `ImportPlan.RelPhaseShape` | ETL/etl_script.py:254-318 | every batch of the relationship phase is a relationship batch of 1 to `n` rows |
| `ImportPlan.PhaseOrder` | ETL/etl_script.py:222-318 | `ImportTrace` sends no node batch after a relationship batch, and every batch holds 1 to `n` rows |
| `ImportPlan.MissingNodeTableAborts` | ETL/etl_script.py:231-231 | a node mapping whose table is missing ends the run; only the batches of earlier node mappings are sent, and no relationship batch is sent |
| `ImportPlan.RelFailureAborts` | ETL/etl_script.py:271-301 | a failing relationship mapping ends the run; all node batches and those of earlier relationship mappings are sent |
| `ImportPlan.PhasedIdempotent` | ETL/etl_script.py:324-355 | node batches followed by relationship batches, applied twice, give the store that applying them once gives |
| `ImportPlan.ImportIdempotent` | ETL/etl_script.py:206-322 | running the import a second time over the same config and source leaves the store as the first run left it |
| `ImportPlan.ImportWellFormed` | ETL/etl_script.py:206-322 | the import keeps the store invariant: nodes carry their converted key value and no null property, and relationships join existing nodes |
| `Importer.Neo4jImporter.constructor` | ETL/etl_script.py:188-194 | a new importer has no store and has sent nothing |
| `Importer.Neo4jImporter.Connect` | ETL/etl_script.py:196-204 | a reachable store is kept as the starting store; a failed attempt changes nothing |
| `Importer.Neo4jImporter.MergeNodesBatch` | ETL/etl_script.py:324-342 | the store becomes the node merge of the batch, and the batch is recorded |
| `Importer.Neo4jImporter.MergeRelsBatch` | ETL/etl_script.py:344-359 | the store becomes the relationship merge of the batch, and the batch is recorded |
| `Importer.Neo4jImporter.FlushNodes` | ETL/etl_script.py:242-244 | a full node buffer is sent as the next batch |
| `Importer.Neo4jImporter.StreamNodes` | ETL/etl_script.py:233-248 | the node loop sends exactly the batches of its rows' property maps |
| `Importer.Neo4jImporter.FlushNodesRest` | ETL/etl_script.py:246-248 | the leftover node buffer is sent unless it is empty, completing the batches of the stream |
| `Importer.Neo4jImporter.FlushRels` | ETL/etl_script.py:284-286 | a full relationship buffer is sent as the next batch |
| `Importer.Neo4jImporter.StreamRels` | ETL/etl_script.py:278-288 | the relationship loop sends exactly the batches of its rows |
| `Importer.Neo4jImporter.FlushRelsRest` | ETL/etl_script.py:287-288 | the leftover relationship buffer is sent unless it is empty |
| `Importer.Neo4jImporter.ImportRelationship` | ETL/etl_script.py:254-318 | one relationship mapping is resolved as `PlanRel` says and sends the batches of that plan |
| `Importer.Neo4jImporter.ImportNodeMapping` | ETL/etl_script.py:224-250 | one node mapping fails on a missing table, or sends the batches of its rows |
| `Importer.Neo4jImporter.ImportNodes` | ETL/etl_script.py:222-250 | the node loop sends the node phase's batches and reports whether it ran to the end |
| `Importer.Neo4jImporter.ImportRelMapping` | ETL/etl_script.py:254-318 | one relationship mapping fails, or sends its batches, as a step of the phase |
| `Importer.Neo4jImporter.ImportRelationships` | ETL/etl_script.py:252-318 | the relationship loop sends the relationship phase's batches and reports whether it ran to the end |
| `Importer.Neo4jImporter.ImportData` | ETL/etl_script.py:206-322 | without a store nothing happens; otherwise the outcome and the batches sent are those of the trace, and the store is the trace applied to the starting store |

## Behaviour worth knowing

The model keeps these behaviours of the script:

- **Composite primary key.** The code reads the first row of the PRIMARY KEY
  query, so a composite key yields one of its columns rather than no key.
- **Link-table test.** The code compares the number of columns with the
  number of distinct outgoing foreign-key columns. It is not a test that
  the foreign keys cover the columns, and it accepts any number of foreign
  keys. `Schema.LinkTestCountsOnly` shows a table the count test accepts
  although no foreign key starts at its columns. `Schema.LinkTestIsCoverage`
  gives the conditions under which counting and covering agree.
- **Link endpoints.** They are the first two related foreign keys in list
  order. Nothing sorts them.
- **Keyless tables with fewer than two foreign keys.** These yield no
  relationship and no diagnostic.
- **Node mapping without a key.** The code does not reject it before the
  import. `p.get(None)` keeps no row, so its batches change nothing
  (`GraphStore.MergeNodesNothingToKey`).
- **Relationships to such a node.** They name the property `None` in the
  query text (`ImportPlan.PkName`).

## Left out

- Catalog extraction and the MySQL connection (`get_db_connection`,
  `extract_relational_schema`): the schema is a value. Only the primary-key
  reduction is modelled, as `Schema.PrimaryKeyOf`.
- Reading and writing `config.json`, the `input()` pause and the console
  messages: the config is passed as a value. A missing config file is not
  modelled.
- The database cursor: the relational source is a parameter mapping each
  existing table to its columns and rows. A missing table, or a missing
  column in a direct mapping's SELECT, raises in the code. The model records
  this as the `Aborted` outcome and keeps the batches already sent.
- Cypher text, py2neo and the network: the two batch queries are modelled
  by their effect on an abstract store. An exception the store raises
  inside a batch is printed and swallowed by the code. The model assumes
  every batch succeeds; the next line names one case where that may not hold.
- `ImportPlan.RelRowOf`: a direct mapping's rows are built without a
  `props` entry, so the query's `ON CREATE SET r = map.props` reads
  `SET r = null`. The model reads that as setting no property and gives
  those rows an empty property map. If the store rejects it instead, every
  direct batch that would create a relationship fails and its error is
  swallowed. That reading is modelled separately, under Findings, and is not
  what the trace uses.
- Node identity across key properties: `MERGE (n:L {k: v})` matches any
  node with label `L` whose property `k` is `v`. The model keys a node by
  the triple label, key property and value (`GraphStore.NodeKey`), so it
  matches only nodes merged on that same key property. This matters only
  when two tables get the same label: `a_b` and `a__b` are both `AB`. A row
  of `a__b` keyed by `code` then finds, in Neo4j, an `a_b` node whose
  `code` property holds the same value. The model creates a second entry
  instead.
- Floating point: a float is modelled as the real number it stands for, and
  `float(Decimal)` is exact.
- `Importer.Neo4jImporter.Connect`: credentials and reachability are
  parameters; the environment variables are not read.
- The global `schema_data` that `import_data` reads is a parameter.
- `Text.Upper`, `Text.Lower`, `Text.Capitalize`: only ASCII letters are
  case-mapped. Python's `str.upper`, `str.lower` and `str.capitalize` also
  map other letters, and can change the length (`'ß'.upper() == 'SS'`).
  The node labels (`Text.PascalCase`) and the `HAS_` relationship types
  (`Inference.RelTypeFor`) are therefore exact only for ASCII table names.
- `Values.Convert`: `isoformat` is modelled for naive dates and datetimes
  only. Time-zone offsets are not modelled, because the MySQL driver returns
  naive values.
- The conversational agent under `Agent/` is not part of this model.

## Findings

| source | as written | input that shows it | evidently intended | confidence | as-written member | corrected member |
|---|---|---|---|---|---|---|
| ETL/etl_script.py:280-283 | direct relationship rows carry only `from_id` and `to_id`, so `ON CREATE SET r = map.props` (line 354) evaluates `SET r = null` | an `orders` table with a foreign key `customer_id` to `customers`, and one order row whose customer exists | the relationship is created, with no properties, as for a row with `"props": {}` | low: not executed; the bug is real only if the store rejects setting a relationship from null | `GraphStore.MergeRelsWithoutProps`, `GraphStore.NullPropsBatchFails` | `ImportPlan.DirectRowsCreate` (over `ImportPlan.RelRowOf`, which gives direct rows an empty property map) |
