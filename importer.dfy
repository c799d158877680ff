/**
  `Neo4jImporter`: the store connection, the batch size, and `import_data`
  with its two batch writers. The streaming loops fill a buffer row by row
  and flush it whenever it reaches the batch size, then flush the rest; the
  record of flushes is proved to be the trace of the import, and the store
  to be that trace applied to the store the run started from.
 */
module Importer {
  import opened Wrappers
  import opened Values
  import opened Text
  import opened Schema
  import opened Mapping
  import opened Rows
  import opened Batching
  import opened GraphStore
  import opened ImportPlan

  class Neo4jImporter {
    /** The store, once `connect` has reached it. */
    var graph: Option<Graph>
    const batchSize: nat := 1000
    /** The store as `connect` found it. */
    ghost var origin: Graph
    /** Every batch handed to the store since `connect`, in order. */
    ghost var flushes: seq<Flush>

    /** A connected store is the store `connect` found with every batch since applied in order. */
    ghost predicate Valid()
      reads this
    {
      graph.Some? ==> graph.value == ApplyAll(origin, flushes)
    }

    constructor ()
      ensures Valid() && graph == None && flushes == []
    {
      graph := None;
      flushes := [];
    }

    /** `connect`: whether the store can be reached is an input; a failed attempt leaves the importer as it was. */
    method Connect(reachable: bool, store: Graph) returns (ok: bool)
      requires Valid()
      modifies this
      ensures Valid() && ok == reachable
      ensures reachable ==> graph == Some(store) && flushes == []
      ensures !reachable ==> graph == old(graph) && flushes == old(flushes) && origin == old(origin)
    {
      if !reachable {
        return false;
      }
      graph := Some(store);
      origin := store;
      flushes := [];
      return true;
    }

    /** `_merge_nodes_batch`: nothing for an empty batch or one without keyable rows, else the upserts of those rows. */
    method MergeNodesBatch(nodeLabel: string, idProp: Option<string>, propList: seq<Props>)
      requires Valid() && graph.Some?
      modifies this`graph, this`flushes
      ensures Valid()
      ensures graph == Some(MergeNodes(old(graph).value, nodeLabel, idProp, propList))
      ensures flushes == old(flushes) + [NodeFlush(nodeLabel, idProp, propList)]
    {
      var g := graph.value;
      UpsertRowsIsUpserts(g.nodes, nodeLabel, idProp, propList);
      if |propList| == 0 {
        MergeNodesNothingToKey(g, nodeLabel, idProp, propList);
      } else {
        var validProps := ValidRows(idProp, propList);
        if |validProps| > 0 {
          assert validProps[0] in validProps;
          g := Graph(ApplyUpserts(g.nodes, Upserts(nodeLabel, idProp.value, validProps)), g.rels);
        }
      }
      ghost var f := NodeFlush(nodeLabel, idProp, propList);
      ApplyAllSnoc(origin, flushes, f);
      graph := Some(g);
      flushes := flushes + [f];
    }

    /** `_merge_rels_batch`: nothing for an empty batch, else the creates of the rows whose endpoints match. */
    method MergeRelsBatch(ends: RelEnds, dataList: seq<RelRow>)
      requires Valid() && graph.Some?
      modifies this`graph, this`flushes
      ensures Valid()
      ensures graph == Some(MergeRels(old(graph).value, ends, dataList))
      ensures flushes == old(flushes) + [RelFlush(ends, dataList)]
    {
      ghost var f := RelFlush(ends, dataList);
      ApplyAllSnoc(origin, flushes, f);
      flushes := flushes + [f];
      if |dataList| == 0 {
        return;
      }
      graph := Some(MergeRels(graph.value, ends, dataList));
    }

    /** A full or final node buffer handed to `_merge_nodes_batch`. */
    method FlushNodes(nodeDef: NodeMapping, batch: seq<Props>, ghost log0: seq<Flush>, ghost done: seq<seq<Props>>)
      requires Valid() && graph.Some? && flushes == log0 + NodeFlushes(nodeDef, done)
      modifies this`graph, this`flushes
      ensures Valid() && graph.Some? && flushes == log0 + NodeFlushes(nodeDef, done + [batch])
    {
      ghost var f := NodeFlush(nodeDef.nodeLabel, nodeDef.primaryKey, batch);
      MergeNodesBatch(nodeDef.nodeLabel, nodeDef.primaryKey, batch);
      NodeFlushesSnoc(nodeDef, done, batch);
      assert log0 + NodeFlushes(nodeDef, done) + [f] == log0 + (NodeFlushes(nodeDef, done) + [f]);
    }

    /** The node loop of one mapping: its rows' property maps flushed in batches of `batchSize`. */
    method StreamNodes(nodeDef: NodeMapping, rows: seq<Row>)
      requires Valid() && graph.Some?
      modifies this`graph, this`flushes
      ensures Valid() && graph.Some?
      ensures flushes == old(flushes) + NodeFlushes(nodeDef, Batches(NodeRows(nodeDef, rows), batchSize))
    {
      ghost var log0 := flushes;
      ghost var done: seq<seq<Props>> := [];
      ghost var stream := NodeRows(nodeDef, rows);
      var nodePropsList: seq<Props> := [];
      assert log0 + NodeFlushes(nodeDef, done) == log0;
      for r := 0 to |rows|
        invariant Valid() && graph.Some?
        invariant Flatten(done) + nodePropsList == stream[..r]
        invariant FullBatches(done, batchSize) && |nodePropsList| < batchSize
        invariant flushes == log0 + NodeFlushes(nodeDef, done)
      {
        var nodeProps := BuildProps(nodeDef.properties, rows[r]);
        BufferStep(done, nodePropsList, stream, r, batchSize);
        nodePropsList := nodePropsList + [nodeProps];
        if |nodePropsList| >= batchSize {
          FlushNodes(nodeDef, nodePropsList, log0, done);
          done := done + [nodePropsList];
          nodePropsList := [];
        }
      }
      assert stream[..|rows|] == stream;
      FlushNodesRest(nodeDef, nodePropsList, log0, done, stream);
    }

    /** The end of the node loop: what is left in the buffer is flushed, unless it is empty. */
    method FlushNodesRest(nodeDef: NodeMapping, rest: seq<Props>, ghost log0: seq<Flush>,
                          ghost done: seq<seq<Props>>, ghost stream: seq<Props>)
      requires Valid() && graph.Some? && flushes == log0 + NodeFlushes(nodeDef, done)
      requires Flatten(done) + rest == stream
      requires FullBatches(done, batchSize) && |rest| < batchSize
      modifies this`graph, this`flushes
      ensures Valid() && graph.Some? && flushes == log0 + NodeFlushes(nodeDef, Batches(stream, batchSize))
    {
      BatchesOfFlushed(done, rest, batchSize);
      if |rest| > 0 {
        FlushNodes(nodeDef, rest, log0, done);
      } else {
        assert done + [] == done;
      }
    }

    /** A full or final relationship buffer handed to `_merge_rels_batch`. */
    method FlushRels(ends: RelEnds, batch: seq<RelRow>, ghost log0: seq<Flush>, ghost done: seq<seq<RelRow>>)
      requires Valid() && graph.Some? && flushes == log0 + RelFlushes(ends, done)
      modifies this`graph, this`flushes
      ensures Valid() && graph.Some? && flushes == log0 + RelFlushes(ends, done + [batch])
    {
      ghost var f := RelFlush(ends, batch);
      MergeRelsBatch(ends, batch);
      RelFlushesSnoc(ends, done, batch);
      assert log0 + RelFlushes(ends, done) + [f] == log0 + (RelFlushes(ends, done) + [f]);
    }

    /** The relationship loop of one mapping: one row per source row, flushed in batches of `batchSize`. */
    method StreamRels(ends: RelEnds, shape: RowShape, rows: seq<Row>)
      requires Valid() && graph.Some?
      modifies this`graph, this`flushes
      ensures Valid() && graph.Some?
      ensures flushes == old(flushes) + RelFlushes(ends, Batches(RelRows(shape, rows), batchSize))
    {
      ghost var log0 := flushes;
      ghost var done: seq<seq<RelRow>> := [];
      ghost var stream := RelRows(shape, rows);
      var relDataList: seq<RelRow> := [];
      assert log0 + RelFlushes(ends, done) == log0;
      for r := 0 to |rows|
        invariant Valid() && graph.Some?
        invariant Flatten(done) + relDataList == stream[..r]
        invariant FullBatches(done, batchSize) && |relDataList| < batchSize
        invariant flushes == log0 + RelFlushes(ends, done)
      {
        var relData := RelRowOf(shape, rows[r]);
        BufferStep(done, relDataList, stream, r, batchSize);
        relDataList := relDataList + [relData];
        if |relDataList| >= batchSize {
          FlushRels(ends, relDataList, log0, done);
          done := done + [relDataList];
          relDataList := [];
        }
      }
      assert stream[..|rows|] == stream;
      FlushRelsRest(ends, relDataList, log0, done, stream);
    }

    /** The end of the relationship loop: what is left in the buffer is flushed, unless it is empty. */
    method FlushRelsRest(ends: RelEnds, rest: seq<RelRow>, ghost log0: seq<Flush>,
                         ghost done: seq<seq<RelRow>>, ghost stream: seq<RelRow>)
      requires Valid() && graph.Some? && flushes == log0 + RelFlushes(ends, done)
      requires Flatten(done) + rest == stream
      requires FullBatches(done, batchSize) && |rest| < batchSize
      modifies this`graph, this`flushes
      ensures Valid() && graph.Some? && flushes == log0 + RelFlushes(ends, Batches(stream, batchSize))
    {
      BatchesOfFlushed(done, rest, batchSize);
      if |rest| > 0 {
        FlushRels(ends, rest, log0, done);
      } else {
        assert done + [] == done;
      }
    }

    /**
      One relationship mapping of `import_data`: its endpoints are resolved,
      the columns its rows are read by are found, and its rows are streamed,
      unless it is skipped; a missing table or column, or a direct key
      without a dot, is reported as a failure with nothing handed to the store.
     */
    method ImportRelationship(config: Config, schema: RelationalSchema, source: Source, relDef: RelMapping)
      returns (plan: RelPlan)
      requires Valid() && graph.Some?
      modifies this`graph, this`flushes
      ensures Valid() && graph.Some?
      ensures plan == PlanRel(config, schema, source, relDef)
      ensures flushes == old(flushes) + PlanFlushes(plan, batchSize)
    {
      var fromNodeConfig := FindNode(config.nodes, relDef.fromNodeTable);
      var toNodeConfig := FindNode(config.nodes, relDef.toNodeTable);
      if fromNodeConfig.None? || toNodeConfig.None? {
        plan := Skipped;
        assert flushes + [] == flushes;
        return;
      }
      var fromPk := PkName(fromNodeConfig.value.primaryKey);
      var ends := RelEnds(fromNodeConfig.value.nodeLabel, fromPk, toNodeConfig.value.nodeLabel,
                          PkName(toNodeConfig.value.primaryKey), relDef.relType);
      var shape: RowShape;
      var rows: seq<Row>;
      assert flushes + [] == flushes;
      if relDef.Direct? {
        var parts := Split(relDef.sourceForeignKey, '.');
        if |parts| < 2 {
          return Failed;
        }
        var sourceTableName, fkColumn := parts[0], parts[1];
        if sourceTableName !in source || fromPk !in source[sourceTableName].columns
          || fkColumn !in source[sourceTableName].columns {
          return Failed;
        }
        shape := DirectShape(fromPk, fkColumn);
        rows := source[sourceTableName].rows;
      } else {
        var linkTableName := relDef.sourceLinkTable;
        var fromFkCol := FkColumnFor(schema.foreignKeys, linkTableName, relDef.fromNodeTable);
        var toFkCol := FkColumnFor(schema.foreignKeys, linkTableName, relDef.toNodeTable);
        if fromFkCol.None? || fromFkCol.value == "" || toFkCol.None? || toFkCol.value == "" {
          return Skipped;
        }
        if linkTableName !in source {
          return Failed;
        }
        shape := LinkShape(fromFkCol.value, toFkCol.value, relDef.properties);
        rows := source[linkTableName].rows;
      }
      plan := Planned(ends, shape, rows);
      StreamRels(ends, shape, rows);
    }

    /**
      One node mapping of `import_data`: a mapping whose table the source
      lacks raises and stops the phase; otherwise its rows are streamed.
     */
    method ImportNodeMapping(source: Source, nodeDef: NodeMapping) returns (ok: bool)
      requires Valid() && graph.Some?
      modifies this`graph, this`flushes
      ensures Valid() && graph.Some?
      ensures ok == NodeStep(source, batchSize, nodeDef).Some?
      ensures !ok ==> flushes == old(flushes)
      ensures ok ==> flushes == old(flushes) + NodeStep(source, batchSize, nodeDef).value
    {
      var tableName := nodeDef.sourceTable;
      if tableName !in source {
        return false;
      }
      StreamNodes(nodeDef, source[tableName].rows);
      ok := true;
    }

    /** The node phase of `import_data`: every node mapping in order, until one names a table the source lacks. */
    method ImportNodes(config: Config, source: Source) returns (ok: bool)
      requires Valid() && graph.Some?
      modifies this`graph, this`flushes
      ensures Valid() && graph.Some?
      ensures ok == NodePhase(config, source, batchSize).running
      ensures flushes == old(flushes) + NodePhase(config, source, batchSize).flushes
    {
      ghost var log0 := flushes;
      ghost var steps := NodeSteps(config, source, batchSize, |config.nodes|);
      assert log0 + Run(steps, 0).flushes == log0;
      for k := 0 to |config.nodes|
        invariant Valid() && graph.Some?
        invariant Run(steps, k).running
        invariant flushes == log0 + Run(steps, k).flushes
      {
        ghost var before := flushes;
        var mapped := ImportNodeMapping(source, config.nodes[k]);
        NodeStepsAt(config, source, batchSize, |steps|, k);
        RunAdvance(log0, steps, k, before, flushes, mapped);
        if !mapped {
          return false;
        }
      }
      return true;
    }

    /** Relationship mapping `k` as a step of the relationship phase: it fails, or hands its batches to the store. */
    method ImportRelMapping(config: Config, schema: RelationalSchema, source: Source, k: nat) returns (ok: bool)
      requires Valid() && graph.Some? && k < |config.relationships|
      modifies this`graph, this`flushes
      ensures Valid() && graph.Some?
      ensures var step := RelSteps(config, schema, source, batchSize, |config.relationships|)[k];
        && ok == step.Some?
        && (!ok ==> flushes == old(flushes))
        && (ok ==> flushes == old(flushes) + step.value)
    {
      var plan := ImportRelationship(config, schema, source, config.relationships[k]);
      RelStepsAt(config, schema, source, batchSize, |config.relationships|, k);
      ok := !plan.Failed?;
      assert !ok ==> flushes == old(flushes) + [];
    }

    /** The relationship phase of `import_data`: every relationship mapping in order, until one fails. */
    method ImportRelationships(config: Config, schema: RelationalSchema, source: Source) returns (ok: bool)
      requires Valid() && graph.Some?
      modifies this`graph, this`flushes
      ensures Valid() && graph.Some?
      ensures ok == RelPhase(config, schema, source, batchSize).running
      ensures flushes == old(flushes) + RelPhase(config, schema, source, batchSize).flushes
    {
      ghost var log0 := flushes;
      ghost var steps := RelSteps(config, schema, source, batchSize, |config.relationships|);
      assert log0 + Run(steps, 0).flushes == log0;
      for k := 0 to |config.relationships|
        invariant Valid() && graph.Some?
        invariant Run(steps, k).running
        invariant flushes == log0 + Run(steps, k).flushes
      {
        ghost var before := flushes;
        var mapped := ImportRelMapping(config, schema, source, k);
        RunAdvance(log0, steps, k, before, flushes, mapped);
        if !mapped {
          return false;
        }
      }
      return true;
    }

    /**
      `import_data`: without a store nothing happens; otherwise every node
      mapping, then every relationship mapping, is streamed into the store,
      and a missing table or column, or a direct key without a dot, ends the
      run with the batches flushed so far kept. The store it leaves is the
      store it started from with the trace of the import applied.
     */
    method ImportData(config: Config, schema: RelationalSchema, source: Source) returns (outcome: Outcome)
      requires Valid()
      modifies this`graph, this`flushes
      ensures Valid()
      ensures old(graph).None? ==> outcome == NotConnected && graph == old(graph) && flushes == old(flushes)
      ensures old(graph).Some? ==>
        var trace := ImportTrace(config, schema, source, batchSize);
        && outcome == trace.outcome
        && flushes == old(flushes) + trace.flushes
        && graph == Some(ApplyAll(old(graph).value, trace.flushes))
    {
      if graph.None? {
        return NotConnected;
      }
      ghost var log0 := flushes;
      var nodesDone := ImportNodes(config, source);
      ghost var nodeFlushes := NodePhase(config, source, batchSize).flushes;
      if !nodesDone {
        outcome := Aborted;
      } else {
        var relsDone := ImportRelationships(config, schema, source);
        ghost var relFlushes := RelPhase(config, schema, source, batchSize).flushes;
        assert log0 + nodeFlushes + relFlushes == log0 + (nodeFlushes + relFlushes);
        outcome := if relsDone then Completed else Aborted;
      }
      ApplyAllConcat(origin, log0, ImportTrace(config, schema, source, batchSize).flushes);
    }
  }
}
