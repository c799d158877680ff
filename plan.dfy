/**
  What `Neo4jImporter.import_data` does, as functions of the config, the
  relational schema and the source rows: the batches it hands to the store,
  in order (its trace), and how the run ends. The importer class is proved
  to perform exactly this trace.

  Node phase: for every node mapping in order, the rows of its table become
  property maps and are flushed in batches. Relationship phase: every
  relationship mapping is resolved to the labels and key properties of its
  endpoint node mappings, or skipped, and its rows are flushed in batches.
  A missing table or column in the source, or a direct mapping whose
  `"table.column"` key has no dot, raises and ends the run where it stands.
 */
module ImportPlan {
  import opened Wrappers
  import opened Values
  import opened Text
  import opened Schema
  import opened Mapping
  import opened Rows
  import opened Batching
  import opened GraphStore

  /** A table of the relational source: its column names and its rows, in cursor order. */
  datatype SourceTable = SourceTable(columns: seq<string>, rows: seq<Row>)

  /** The relational source: the tables that exist, by name. */
  type Source = map<string, SourceTable>

  // ---------------------------------------------------------------------------
  // Resolution
  // ---------------------------------------------------------------------------

  /** No node mapping before position `i` has `table` as its source. */
  predicate First(nodes: seq<NodeMapping>, i: nat, table: string)
    requires i <= |nodes|
  {
    forall j :: 0 <= j < i ==> nodes[j].sourceTable != table
  }

  /** The first node mapping whose source table is `table`, if any. */
  function FindNode(nodes: seq<NodeMapping>, table: string): Option<NodeMapping>
    decreases |nodes|
  {
    if |nodes| == 0 then None
    else if nodes[0].sourceTable == table then Some(nodes[0])
    else FindNode(nodes[1..], table)
  }

  /** The lookup fails exactly when no mapping has `table` as its source, and otherwise finds the first that does. */
  lemma {:induction false} FindNodeFirst(nodes: seq<NodeMapping>, table: string)
    ensures var r := FindNode(nodes, table);
      && (r.None? <==> forall n :: n in nodes ==> n.sourceTable != table)
      && (r.Some? ==> r.value.sourceTable == table)
      && (r.Some? ==> exists i :: 0 <= i < |nodes| && nodes[i] == r.value && First(nodes, i, table))
    decreases |nodes|
  {
    if |nodes| > 0 && nodes[0].sourceTable != table {
      var r := FindNode(nodes[1..], table);
      FindNodeFirst(nodes[1..], table);
      assert nodes == [nodes[0]] + nodes[1..];
      if r.Some? {
        var i :| 0 <= i < |nodes[1..]| && nodes[1..][i] == r.value && First(nodes[1..], i, table);
        assert nodes[i + 1] == r.value;
        forall j | 0 <= j < i + 1 ensures nodes[j].sourceTable != table {
          if j > 0 {
            assert nodes[j] == nodes[1..][j - 1];
          }
        }
        assert First(nodes, i + 1, table);
      }
    } else if |nodes| > 0 {
      assert First(nodes, 0, table);
    }
  }

  /** The `from_column` of the first foreign key from `linkTable` to `target`, if any. */
  function FkColumnFor(fks: seq<ForeignKey>, linkTable: string, target: string): Option<string>
    decreases |fks|
  {
    if |fks| == 0 then None
    else if fks[0].fromTable == linkTable && fks[0].toTable == target then Some(fks[0].fromColumn)
    else FkColumnFor(fks[1..], linkTable, target)
  }

  /** Foreign key `i` goes from `linkTable` to `target`, and no earlier one does. */
  predicate FirstFk(fks: seq<ForeignKey>, i: int, linkTable: string, target: string)
    requires 0 <= i < |fks|
  {
    && fks[i].fromTable == linkTable && fks[i].toTable == target
    && forall j :: 0 <= j < i ==> fks[j].fromTable != linkTable || fks[j].toTable != target
  }

  /**
    The column lookup fails exactly when no foreign key goes from `linkTable`
    to `target`, and otherwise reads the first one that does.
   */
  lemma {:induction false} FkColumnForFound(fks: seq<ForeignKey>, linkTable: string, target: string)
    ensures var c := FkColumnFor(fks, linkTable, target);
      && (c.None? <==> forall f :: f in fks ==> f.fromTable != linkTable || f.toTable != target)
      && (c.Some? ==> exists f :: f in fks && f.fromTable == linkTable && f.toTable == target && f.fromColumn == c.value)
      && (c.Some? ==> exists i :: 0 <= i < |fks| && FirstFk(fks, i, linkTable, target) && fks[i].fromColumn == c.value)
    decreases |fks|
  {
    if |fks| > 0 && !(fks[0].fromTable == linkTable && fks[0].toTable == target) {
      var c := FkColumnFor(fks[1..], linkTable, target);
      FkColumnForFound(fks[1..], linkTable, target);
      assert forall f :: f in fks ==> f == fks[0] || f in fks[1..];
      if c.Some? {
        var i :| 0 <= i < |fks[1..]| && FirstFk(fks[1..], i, linkTable, target) && fks[1..][i].fromColumn == c.value;
        forall j | 0 <= j < i + 1 ensures fks[j].fromTable != linkTable || fks[j].toTable != target {
          if j > 0 {
            assert fks[j] == fks[1..][j - 1];
          }
        }
        assert FirstFk(fks, i + 1, linkTable, target);
      }
    } else if |fks| > 0 {
      assert fks[0] in fks;
      assert FirstFk(fks, 0, linkTable, target);
    }
  }

  /** The property name an identifying property gives in query text: its name, or `None` when there is none. */
  function PkName(pk: Option<string>): string
  {
    if pk.Some? then pk.value else "None"
  }

  /** The two columns of a direct mapping's rows, or the columns and property mapping of a link table's rows. */
  datatype RowShape =
    | DirectShape(pkColumn: string, fkColumn: string)
    | LinkShape(fromColumn: string, toColumn: string, properties: PropertyMapping)

  /** The row handed to the relationship batch for one source row; only link rows carry properties. */
  function RelRowOf(shape: RowShape, row: Row): RelRow
  {
    match shape
    case DirectShape(pkColumn, fkColumn) => RelRow(Get(row, pkColumn), Get(row, fkColumn), map[])
    case LinkShape(fromColumn, toColumn, properties) =>
      RelRow(Get(row, fromColumn), Get(row, toColumn), BuildProps(properties, row))
  }

  function RelRows(shape: RowShape, rows: seq<Row>): (rs: seq<RelRow>)
    ensures |rs| == |rows|
  {
    seq(|rows|, i requires 0 <= i < |rows| => RelRowOf(shape, rows[i]))
  }

  /**
    A direct mapping's rows carry an empty property map: a batch of them
    creates one relationship for each row whose endpoints match and are not
    yet joined, and every relationship it creates has no properties.
   */
  lemma DirectRowsCreate(g: Graph, ends: RelEnds, pkColumn: string, fkColumn: string, rows: seq<Row>)
    ensures var rs := RelRows(DirectShape(pkColumn, fkColumn), rows);
      var after := MergeRels(g, ends, rs);
      && (forall i :: 0 <= i < |rows| && WouldCreate(g, ends, rs[i]) ==> RelKeyOf(ends, rs[i]) in after.rels)
      && (forall k :: k in after.rels && k !in g.rels ==> after.rels[k] == map[])
  {
    var rs := RelRows(DirectShape(pkColumn, fkColumn), rows);
    forall r | r in rs ensures r.props == map[] {
      var i :| 0 <= i < |rs| && rs[i] == r;
    }
    MergeRelsNoProps(g, ends, rs);
    assert forall i :: 0 <= i < |rs| ==> rs[i] in rs;
  }

  /** What becomes of one relationship mapping. */
  datatype RelPlan =
    | Skipped
    | Failed
    | Planned(ends: RelEnds, shape: RowShape, rows: seq<Row>)

  /**
    The endpoints are the first node mappings of the from- and to-table; a
    direct mapping reads the from key and the foreign-key column of the table
    named before the dot, a link mapping reads the link table with the
    columns of its first foreign keys to the two endpoint tables.
   */
  function PlanRel(config: Config, schema: RelationalSchema, source: Source, rd: RelMapping): RelPlan
  {
    var fromNode := FindNode(config.nodes, rd.fromNodeTable);
    var toNode := FindNode(config.nodes, rd.toNodeTable);
    if fromNode.None? || toNode.None? then Skipped
    else
      var fromPk := PkName(fromNode.value.primaryKey);
      var ends := RelEnds(fromNode.value.nodeLabel, fromPk, toNode.value.nodeLabel, PkName(toNode.value.primaryKey), rd.relType);
      match rd
      case Direct(sourceForeignKey, _, _, _, _, _) =>
        var parts := Split(sourceForeignKey, '.');
        if |parts| < 2 then Failed
        else if parts[0] !in source || fromPk !in source[parts[0]].columns || parts[1] !in source[parts[0]].columns then Failed
        else Planned(ends, DirectShape(fromPk, parts[1]), source[parts[0]].rows)
      case Link(sourceLinkTable, _, _, _, properties) =>
        var fromCol := FkColumnFor(schema.foreignKeys, sourceLinkTable, rd.fromNodeTable);
        var toCol := FkColumnFor(schema.foreignKeys, sourceLinkTable, rd.toNodeTable);
        if fromCol.None? || fromCol.value == "" || toCol.None? || toCol.value == "" then Skipped
        else if sourceLinkTable !in source then Failed
        else Planned(ends, LinkShape(fromCol.value, toCol.value, properties), source[sourceLinkTable].rows)
  }

  /**
    A relationship mapping is skipped exactly when its from- or to-table has
    no node mapping, or it is a link mapping and a foreign-key column from
    the link table to one of the endpoint tables cannot be found.
   */
  lemma PlanRelSkipped(config: Config, schema: RelationalSchema, source: Source, rd: RelMapping)
    ensures PlanRel(config, schema, source, rd).Skipped? <==>
      || (forall n :: n in config.nodes ==> n.sourceTable != rd.fromNodeTable)
      || (forall n :: n in config.nodes ==> n.sourceTable != rd.toNodeTable)
      || (rd.Link? && (
            || (forall f :: f in schema.foreignKeys ==> f.fromTable != rd.sourceLinkTable || f.toTable != rd.fromNodeTable)
            || (forall f :: f in schema.foreignKeys ==> f.fromTable != rd.sourceLinkTable || f.toTable != rd.toNodeTable)
            || FkColumnFor(schema.foreignKeys, rd.sourceLinkTable, rd.fromNodeTable) == Some("")
            || FkColumnFor(schema.foreignKeys, rd.sourceLinkTable, rd.toNodeTable) == Some("")))
  {
    FindNodeFirst(config.nodes, rd.fromNodeTable);
    FindNodeFirst(config.nodes, rd.toNodeTable);
    if rd.Link? {
      FkColumnForFound(schema.foreignKeys, rd.sourceLinkTable, rd.fromNodeTable);
      FkColumnForFound(schema.foreignKeys, rd.sourceLinkTable, rd.toNodeTable);
    }
  }

  /** A planned mapping reads two node mappings that exist, with their labels and key properties. */
  lemma PlannedEnds(config: Config, schema: RelationalSchema, source: Source, rd: RelMapping)
    requires PlanRel(config, schema, source, rd).Planned?
    ensures var ends := PlanRel(config, schema, source, rd).ends;
      && ends.relType == rd.relType
      && (exists n :: n in config.nodes && n.sourceTable == rd.fromNodeTable &&
            ends.fromLabel == n.nodeLabel && ends.fromKey == PkName(n.primaryKey))
      && (exists n :: n in config.nodes && n.sourceTable == rd.toNodeTable &&
            ends.toLabel == n.nodeLabel && ends.toKey == PkName(n.primaryKey))
  {
    var fromNode := FindNode(config.nodes, rd.fromNodeTable);
    var toNode := FindNode(config.nodes, rd.toNodeTable);
    FindNodeFirst(config.nodes, rd.fromNodeTable);
    FindNodeFirst(config.nodes, rd.toNodeTable);
    var i :| 0 <= i < |config.nodes| && config.nodes[i] == fromNode.value && First(config.nodes, i, rd.fromNodeTable);
    var k :| 0 <= k < |config.nodes| && config.nodes[k] == toNode.value && First(config.nodes, k, rd.toNodeTable);
  }

  /** A direct mapping whose key has no dot raises on reading the column name after it. */
  lemma DirectKeyWithoutDotFails(config: Config, schema: RelationalSchema, source: Source, rd: RelMapping)
    requires rd.Direct? && '.' !in rd.sourceForeignKey
    requires FindNode(config.nodes, rd.fromNodeTable).Some? && FindNode(config.nodes, rd.toNodeTable).Some?
    ensures PlanRel(config, schema, source, rd) == Failed
  {
    SplitWord(rd.sourceForeignKey, '.');
  }

  /**
    The direct mapping inference writes for a foreign key reads the foreign
    key's own table and column back out of its key.
   */
  lemma DirectKeyReadsItsColumn(config: Config, schema: RelationalSchema, source: Source, rd: RelMapping, table: string, column: string)
    requires rd.Direct? && rd.sourceForeignKey == table + "." + column && '.' !in table && '.' !in column
    requires PlanRel(config, schema, source, rd).Planned?
    ensures PlanRel(config, schema, source, rd).shape.DirectShape?
    ensures PlanRel(config, schema, source, rd).shape.fkColumn == column
    ensures table in source && PlanRel(config, schema, source, rd).rows == source[table].rows
  {
    DottedRoundTrip(table, column);
  }

  /**
    A link table whose two endpoints are the same table reads one column for
    both ends, so every row joins a node to itself.
   */
  lemma SelfLinkJoinsNodeToItself(config: Config, schema: RelationalSchema, source: Source, rd: RelMapping)
    requires rd.Link? && rd.fromNodeTable == rd.toNodeTable
    requires PlanRel(config, schema, source, rd).Planned?
    ensures var plan := PlanRel(config, schema, source, rd);
      forall r :: r in RelRows(plan.shape, plan.rows) ==> r.fromId == r.toId
  {
  }

  // ---------------------------------------------------------------------------
  // Flushes and the trace
  // ---------------------------------------------------------------------------

  /** One batch handed to the store: a node batch or a relationship batch. */
  datatype Flush =
    | NodeFlush(nodeLabel: string, idProp: Option<string>, batch: seq<Props>)
    | RelFlush(ends: RelEnds, rows: seq<RelRow>)

  function ApplyFlush(g: Graph, f: Flush): Graph
  {
    match f
    case NodeFlush(nodeLabel, idProp, batch) => MergeNodes(g, nodeLabel, idProp, batch)
    case RelFlush(ends, rows) => MergeRels(g, ends, rows)
  }

  /** The store after the flushes, in order. */
  function ApplyAll(g: Graph, fs: seq<Flush>): Graph
  {
    ApplyFirst(g, fs, |fs|)
  }

  /** The store after the first `m` flushes, in order. */
  function ApplyFirst(g: Graph, fs: seq<Flush>, m: nat): Graph
    requires m <= |fs|
  {
    if m == 0 then g else ApplyFlush(ApplyFirst(g, fs, m - 1), fs[m - 1])
  }

  /** The property maps of a node mapping's rows, in cursor order. */
  function NodeRows(nm: NodeMapping, rows: seq<Row>): (ps: seq<Props>)
    ensures |ps| == |rows| && forall p :: p in ps ==> NeutralProps(p)
  {
    seq(|rows|, i requires 0 <= i < |rows| => BuildProps(nm.properties, rows[i]))
  }

  function NodeFlushes(nm: NodeMapping, bs: seq<seq<Props>>): (fs: seq<Flush>)
    ensures |fs| == |bs|
    ensures forall i :: 0 <= i < |fs| ==> fs[i] == NodeFlush(nm.nodeLabel, nm.primaryKey, bs[i])
  {
    if |bs| == 0 then [] else NodeFlushes(nm, bs[..|bs| - 1]) + [NodeFlush(nm.nodeLabel, nm.primaryKey, bs[|bs| - 1])]
  }

  function RelFlushes(ends: RelEnds, bs: seq<seq<RelRow>>): (fs: seq<Flush>)
    ensures |fs| == |bs|
    ensures forall i :: 0 <= i < |fs| ==> fs[i] == RelFlush(ends, bs[i])
  {
    if |bs| == 0 then [] else RelFlushes(ends, bs[..|bs| - 1]) + [RelFlush(ends, bs[|bs| - 1])]
  }

  /** The flushes of a phase so far, and whether it is still running. */
  datatype Phase = Phase(flushes: seq<Flush>, running: bool)

  /** What one mapping adds to its phase: the batches it hands to the store, or `None` when it stops the phase. */
  type Step = Option<seq<Flush>>

  /** A phase over its first `k` mappings: the batches of each in turn, up to the first one that stops it. */
  function Run(steps: seq<Step>, k: nat): Phase
    requires k <= |steps|
  {
    if k == 0 then Phase([], true)
    else
      var prev := Run(steps, k - 1);
      if !prev.running then prev
      else
        match steps[k - 1]
        case None => Phase(prev.flushes, false)
        case Some(fs) => Phase(prev.flushes + fs, true)
  }

  /** A node mapping whose table the source lacks raises; otherwise its rows go to the store in batches of `n`. */
  function NodeStep(source: Source, n: nat, nm: NodeMapping): Step
    requires n > 0
  {
    if nm.sourceTable !in source then None
    else Some(NodeFlushes(nm, Batches(NodeRows(nm, source[nm.sourceTable].rows), n)))
  }

  /** The steps of the first `k` node mappings. */
  function NodeSteps(config: Config, source: Source, n: nat, k: nat): (steps: seq<Step>)
    requires n > 0 && k <= |config.nodes|
    ensures |steps| == k
  {
    if k == 0 then [] else NodeSteps(config, source, n, k - 1) + [NodeStep(source, n, config.nodes[k - 1])]
  }

  lemma {:induction false} NodeStepsAt(config: Config, source: Source, n: nat, k: nat, i: nat)
    requires n > 0 && i < k <= |config.nodes|
    ensures NodeSteps(config, source, n, k)[i] == NodeStep(source, n, config.nodes[i])
  {
    if i < k - 1 {
      NodeStepsAt(config, source, n, k - 1, i);
    }
  }

  /** A relationship mapping that fails raises; a skipped one adds nothing. */
  function RelStep(plan: RelPlan, n: nat): Step
    requires n > 0
  {
    if plan.Failed? then None else Some(PlanFlushes(plan, n))
  }

  /** The steps of the first `k` relationship mappings. */
  function RelSteps(config: Config, schema: RelationalSchema, source: Source, n: nat, k: nat): (steps: seq<Step>)
    requires n > 0 && k <= |config.relationships|
    ensures |steps| == k
  {
    if k == 0 then []
    else RelSteps(config, schema, source, n, k - 1) + [RelStep(PlanRel(config, schema, source, config.relationships[k - 1]), n)]
  }

  lemma {:induction false} RelStepsAt(config: Config, schema: RelationalSchema, source: Source, n: nat, k: nat, i: nat)
    requires n > 0 && i < k <= |config.relationships|
    ensures RelSteps(config, schema, source, n, k)[i] == RelStep(PlanRel(config, schema, source, config.relationships[i]), n)
  {
    if i < k - 1 {
      RelStepsAt(config, schema, source, n, k - 1, i);
    }
  }

  /** The node phase: every node mapping in order, until one names a table the source lacks. */
  function NodePhase(config: Config, source: Source, n: nat): Phase
    requires n > 0
  {
    Run(NodeSteps(config, source, n, |config.nodes|), |config.nodes|)
  }

  /** The relationship phase: every relationship mapping in order, until one fails. */
  function RelPhase(config: Config, schema: RelationalSchema, source: Source, n: nat): Phase
    requires n > 0
  {
    Run(RelSteps(config, schema, source, n, |config.relationships|), |config.relationships|)
  }

  /** How `import_data` ends. */
  datatype Outcome = Completed | NotConnected | Aborted

  datatype Trace = Trace(flushes: seq<Flush>, outcome: Outcome)

  /** All node batches, then, unless the node phase failed, all relationship batches. */
  function ImportTrace(config: Config, schema: RelationalSchema, source: Source, n: nat): Trace
    requires n > 0
  {
    var nodes := NodePhase(config, source, n);
    if !nodes.running then Trace(nodes.flushes, Aborted)
    else
      var rels := RelPhase(config, schema, source, n);
      Trace(nodes.flushes + rels.flushes, if rels.running then Completed else Aborted)
  }

  // ---------------------------------------------------------------------------
  // Properties of the trace
  // ---------------------------------------------------------------------------

  /** A flush holds between one and `n` rows. */
  predicate SizedFlush(f: Flush, n: nat)
  {
    match f
    case NodeFlush(_, _, batch) => 0 < |batch| <= n
    case RelFlush(_, rows) => 0 < |rows| <= n
  }

  /** A node flush of converted property maps. */
  predicate NeutralFlush(f: Flush)
  {
    f.NodeFlush? ==> forall p :: p in f.batch ==> NeutralProps(p)
  }

  lemma NodeFlushesShape(nm: NodeMapping, xs: seq<Props>, n: nat)
    requires n > 0 && forall p :: p in xs ==> NeutralProps(p)
    ensures forall f :: f in NodeFlushes(nm, Batches(xs, n)) ==> f.NodeFlush? && SizedFlush(f, n) && NeutralFlush(f)
  {
    var bs := Batches(xs, n);
    BatchesShape(xs, n);
    forall f | f in NodeFlushes(nm, bs) ensures f.NodeFlush? && SizedFlush(f, n) && NeutralFlush(f) {
      var i :| 0 <= i < |bs| && f == NodeFlush(nm.nodeLabel, nm.primaryKey, bs[i]);
      forall p | p in bs[i] ensures NeutralProps(p) {
        FlattenMember(bs, i, p);
      }
    }
  }

  lemma {:induction false} FlattenMember<T>(bs: seq<seq<T>>, i: nat, x: T)
    requires i < |bs| && x in bs[i]
    ensures x in Flatten(bs)
  {
    if i < |bs| - 1 {
      assert bs[..|bs| - 1][i] == bs[i];
      FlattenMember(bs[..|bs| - 1], i, x);
    }
  }

  lemma RelFlushesShape(ends: RelEnds, xs: seq<RelRow>, n: nat)
    requires n > 0
    ensures forall f :: f in RelFlushes(ends, Batches(xs, n)) ==> f.RelFlush? && SizedFlush(f, n)
  {
    BatchesShape(xs, n);
  }

  /** Every batch of a phase so far is a batch of one of the mappings it ran. */
  lemma {:induction false} RunMembers(steps: seq<Step>, k: nat, f: Flush)
    requires k <= |steps| && f in Run(steps, k).flushes
    ensures exists i :: 0 <= i < k && steps[i].Some? && f in steps[i].value
  {
    var prev := Run(steps, k - 1);
    if !prev.running || steps[k - 1].None? || f in prev.flushes {
      RunMembers(steps, k - 1, f);
    } else {
      assert f in steps[k - 1].value;
    }
  }

  /** One more mapping of a running phase: it stops the phase, or appends its batches. */
  lemma RunNext(log: seq<Flush>, steps: seq<Step>, k: nat)
    requires k < |steps| && Run(steps, k).running
    ensures Run(steps, k + 1).running == steps[k].Some?
    ensures steps[k].None? ==> Run(steps, k + 1).flushes == Run(steps, k).flushes
    ensures steps[k].Some? ==> log + Run(steps, k + 1).flushes == log + Run(steps, k).flushes + steps[k].value
  {
    if steps[k].Some? {
      assert log + Run(steps, k).flushes + steps[k].value == log + (Run(steps, k).flushes + steps[k].value);
    }
  }

  /**
    One mapping of a running phase, from the log before it to the log after
    it: a mapping that hands over its batches keeps the phase running with
    those batches logged; one that fails ends the phase with the log as it
    was.
   */
  lemma RunAdvance(log: seq<Flush>, steps: seq<Step>, k: nat, before: seq<Flush>, after: seq<Flush>, mapped: bool)
    requires k < |steps| && Run(steps, k).running && before == log + Run(steps, k).flushes
    requires mapped == steps[k].Some?
    requires !mapped ==> after == before
    requires mapped ==> after == before + steps[k].value
    ensures mapped ==> Run(steps, k + 1).running && after == log + Run(steps, k + 1).flushes
    ensures !mapped ==> !Run(steps, |steps|).running && after == log + Run(steps, |steps|).flushes
  {
    RunNext(log, steps, k);
    if !mapped {
      RunStops(steps, k + 1, |steps|);
    }
  }

  /** Once a phase has stopped, later mappings add nothing. */
  lemma {:induction false} RunStops(steps: seq<Step>, k: nat, m: nat)
    requires k <= m <= |steps| && !Run(steps, k).running
    ensures Run(steps, m) == Run(steps, k)
    decreases m - k
  {
    if m > k {
      RunStops(steps, k, m - 1);
    }
  }

  lemma NodePhaseShape(config: Config, source: Source, n: nat)
    requires n > 0
    ensures forall f :: f in NodePhase(config, source, n).flushes ==> f.NodeFlush? && SizedFlush(f, n) && NeutralFlush(f)
  {
    var steps := NodeSteps(config, source, n, |config.nodes|);
    forall f | f in NodePhase(config, source, n).flushes
      ensures f.NodeFlush? && SizedFlush(f, n) && NeutralFlush(f)
    {
      RunMembers(steps, |steps|, f);
      var i :| 0 <= i < |steps| && steps[i].Some? && f in steps[i].value;
      NodeStepsAt(config, source, n, |steps|, i);
      var nm := config.nodes[i];
      NodeFlushesShape(nm, NodeRows(nm, source[nm.sourceTable].rows), n);
    }
  }

  lemma RelPhaseShape(config: Config, schema: RelationalSchema, source: Source, n: nat)
    requires n > 0
    ensures forall f :: f in RelPhase(config, schema, source, n).flushes ==> f.RelFlush? && SizedFlush(f, n)
  {
    var steps := RelSteps(config, schema, source, n, |config.relationships|);
    forall f | f in RelPhase(config, schema, source, n).flushes
      ensures f.RelFlush? && SizedFlush(f, n)
    {
      RunMembers(steps, |steps|, f);
      var i :| 0 <= i < |steps| && steps[i].Some? && f in steps[i].value;
      RelStepsAt(config, schema, source, n, |steps|, i);
      var plan := PlanRel(config, schema, source, config.relationships[i]);
      RelFlushesShape(plan.ends, RelRows(plan.shape, plan.rows), n);
    }
  }

  /**
    Phase order and batch sizes: every node batch of the run comes before
    every relationship batch, and every batch holds between one and `n` rows.
   */
  lemma PhaseOrder(config: Config, schema: RelationalSchema, source: Source, n: nat)
    requires n > 0
    ensures var fs := ImportTrace(config, schema, source, n).flushes;
      && (forall i, j :: 0 <= i < j < |fs| && fs[i].RelFlush? ==> fs[j].RelFlush?)
      && (forall f :: f in fs ==> SizedFlush(f, n))
  {
    var nodes := NodePhase(config, source, n);
    var rels := RelPhase(config, schema, source, n);
    NodePhaseShape(config, source, n);
    RelPhaseShape(config, schema, source, n);
    if nodes.running {
      var fs := nodes.flushes + rels.flushes;
      var m := |nodes.flushes|;
      forall i | 0 <= i < |fs| ensures (i < m ==> fs[i].NodeFlush?) && (i >= m ==> fs[i].RelFlush?) {
        if i < m {
          assert fs[i] == nodes.flushes[i];
          assert nodes.flushes[i] in nodes.flushes;
        } else {
          assert fs[i] == rels.flushes[i - m];
          assert rels.flushes[i - m] in rels.flushes;
        }
      }
    } else {
      var fs := nodes.flushes;
      forall i | 0 <= i < |fs| ensures fs[i].NodeFlush? {
        assert fs[i] in fs;
      }
    }
  }

  /**
    A node mapping whose table the source lacks ends the run: the
    relationship phase never starts, and the batches of the node mappings
    before it are all the run hands to the store.
   */
  lemma MissingNodeTableAborts(config: Config, schema: RelationalSchema, source: Source, n: nat, k: nat)
    requires n > 0 && k < |config.nodes| && Run(NodeSteps(config, source, n, |config.nodes|), k).running
    requires config.nodes[k].sourceTable !in source
    ensures ImportTrace(config, schema, source, n) == Trace(Run(NodeSteps(config, source, n, |config.nodes|), k).flushes, Aborted)
  {
    var steps := NodeSteps(config, source, n, |config.nodes|);
    NodeStepsAt(config, source, n, |steps|, k);
    RunNext([], steps, k);
    RunStops(steps, k + 1, |steps|);
  }

  /**
    A relationship mapping that fails ends the run: the batches handed to the
    store are the node batches and those of the relationship mappings before it.
   */
  lemma RelFailureAborts(config: Config, schema: RelationalSchema, source: Source, n: nat, k: nat)
    requires n > 0 && k < |config.relationships|
    requires NodePhase(config, source, n).running && Run(RelSteps(config, schema, source, n, |config.relationships|), k).running
    requires PlanRel(config, schema, source, config.relationships[k]).Failed?
    ensures ImportTrace(config, schema, source, n) ==
      Trace(NodePhase(config, source, n).flushes + Run(RelSteps(config, schema, source, n, |config.relationships|), k).flushes, Aborted)
  {
    var steps := RelSteps(config, schema, source, n, |config.relationships|);
    RelStepsAt(config, schema, source, n, |steps|, k);
    RunNext([], steps, k);
    RunStops(steps, k + 1, |steps|);
  }

  /** The batches a resolved relationship mapping hands to the store: none unless it is planned. */
  function PlanFlushes(plan: RelPlan, n: nat): (fs: seq<Flush>)
    requires n > 0
    ensures !plan.Planned? ==> fs == []
    ensures plan.Planned? ==> forall f :: f in fs ==> f.RelFlush? && f.ends == plan.ends
  {
    if plan.Planned? then RelFlushes(plan.ends, Batches(RelRows(plan.shape, plan.rows), n)) else []
  }

  lemma NodeFlushesSnoc(nm: NodeMapping, bs: seq<seq<Props>>, b: seq<Props>)
    ensures NodeFlushes(nm, bs + [b]) == NodeFlushes(nm, bs) + [NodeFlush(nm.nodeLabel, nm.primaryKey, b)]
  {
    assert (bs + [b])[..|bs|] == bs;
  }

  lemma RelFlushesSnoc(ends: RelEnds, bs: seq<seq<RelRow>>, b: seq<RelRow>)
    ensures RelFlushes(ends, bs + [b]) == RelFlushes(ends, bs) + [RelFlush(ends, b)]
  {
    assert (bs + [b])[..|bs|] == bs;
  }

  lemma ApplyAllSnoc(g: Graph, fs: seq<Flush>, f: Flush)
    ensures ApplyAll(g, fs + [f]) == ApplyFlush(ApplyAll(g, fs), f)
  {
    assert (fs + [f])[..|fs|] == fs;
    ApplyAllLast(g, fs + [f]);
  }

  // ---------------------------------------------------------------------------
  // Idempotence and the store invariant
  // ---------------------------------------------------------------------------

  lemma {:induction false} ApplyAllConcat(g: Graph, a: seq<Flush>, b: seq<Flush>)
    ensures ApplyAll(g, a + b) == ApplyAll(ApplyAll(g, a), b)
    decreases |b|
  {
    if |b| == 0 {
      assert a + b == a;
    } else {
      var c := a + b;
      var init := b[..|b| - 1];
      assert c[..|c| - 1] == a + init;
      assert c[|c| - 1] == b[|b| - 1];
      ApplyAllConcat(g, a, init);
      ApplyAllLast(g, c);
      ApplyAllLast(ApplyAll(g, a), b);
    }
  }

  lemma ApplyAllLast(g: Graph, fs: seq<Flush>)
    requires |fs| > 0
    ensures ApplyAll(g, fs) == ApplyFlush(ApplyAll(g, fs[..|fs| - 1]), fs[|fs| - 1])
  {
    ApplyFirstAgree(g, fs, fs[..|fs| - 1], |fs| - 1);
  }

  /** Only the first `m` flushes matter to `ApplyFirst(g, fs, m)`. */
  lemma {:induction false} ApplyFirstAgree(g: Graph, fs: seq<Flush>, gs: seq<Flush>, m: nat)
    requires m <= |fs| && m <= |gs| && fs[..m] == gs[..m]
    ensures ApplyFirst(g, fs, m) == ApplyFirst(g, gs, m)
  {
    if m > 0 {
      assert fs[m - 1] == fs[..m][m - 1] == gs[..m][m - 1] == gs[m - 1];
      assert fs[..m - 1] == fs[..m][..m - 1] == gs[..m][..m - 1] == gs[..m - 1];
      ApplyFirstAgree(g, fs, gs, m - 1);
    }
  }

  /** The upserts of a list of node flushes, in order. */
  function AllUpserts(fs: seq<Flush>): seq<Upsert>
  {
    if |fs| == 0 then []
    else
      var last := fs[|fs| - 1];
      AllUpserts(fs[..|fs| - 1]) + (if last.NodeFlush? then BatchUpserts(last.nodeLabel, last.idProp, last.batch) else [])
  }

  /** The creates of a list of relationship flushes over fixed nodes, in order. */
  function AllCreates(nodes: map<NodeKey, Props>, fs: seq<Flush>): seq<Create>
  {
    if |fs| == 0 then []
    else
      var last := fs[|fs| - 1];
      AllCreates(nodes, fs[..|fs| - 1]) + (if last.RelFlush? then Creates(nodes, last.ends, last.rows) else [])
  }

  /** Node flushes are the upserts of all their rows, one after another; relationships do not change. */
  lemma {:induction false} NodeFlushesApply(g: Graph, fs: seq<Flush>)
    requires forall f :: f in fs ==> f.NodeFlush?
    ensures ApplyAll(g, fs) == Graph(ApplyUpserts(g.nodes, AllUpserts(fs)), g.rels)
  {
    if |fs| > 0 {
      var prefix := fs[..|fs| - 1];
      var last := fs[|fs| - 1];
      ApplyAllLast(g, fs);
      assert forall f :: f in prefix ==> f in fs;
      assert last in fs;
      NodeFlushesApply(g, prefix);
      ApplyUpsertsConcat(g.nodes, AllUpserts(prefix), BatchUpserts(last.nodeLabel, last.idProp, last.batch));
      UpsertRowsIsUpserts(ApplyAll(g, prefix).nodes, last.nodeLabel, last.idProp, last.batch);
    }
  }

  /** Relationship flushes are the creates of all their rows against the same nodes; nodes do not change. */
  lemma {:induction false} RelFlushesApply(g: Graph, fs: seq<Flush>)
    requires forall f :: f in fs ==> f.RelFlush?
    ensures ApplyAll(g, fs) == Graph(g.nodes, ApplyCreates(g.rels, AllCreates(g.nodes, fs)))
  {
    if |fs| > 0 {
      var prefix := fs[..|fs| - 1];
      var last := fs[|fs| - 1];
      ApplyAllLast(g, fs);
      assert forall f :: f in prefix ==> f in fs;
      assert last in fs;
      RelFlushesApply(g, prefix);
      ApplyCreatesConcat(g.rels, AllCreates(g.nodes, prefix), Creates(g.nodes, last.ends, last.rows));
    }
  }

  /** Node batches followed by relationship batches: applying them twice is applying them once. */
  lemma PhasedIdempotent(g: Graph, ns: seq<Flush>, rs: seq<Flush>)
    requires forall f :: f in ns ==> f.NodeFlush?
    requires forall f :: f in rs ==> f.RelFlush?
    ensures ApplyAll(ApplyAll(g, ns + rs), ns + rs) == ApplyAll(g, ns + rs)
  {
    var g1 := ApplyAll(g, ns);
    var g2 := ApplyAll(g1, rs);
    ApplyAllConcat(g, ns, rs);
    ApplyAllConcat(g2, ns, rs);
    NodeFlushesApply(g, ns);
    RelFlushesApply(g1, rs);
    NodeFlushesApply(g2, ns);
    ApplyUpsertsIdempotent(g.nodes, AllUpserts(ns));
    var g3 := ApplyAll(g2, ns);
    assert g3 == g2;
    RelFlushesApply(g2, rs);
    ApplyCreatesIdempotent(g1.rels, AllCreates(g1.nodes, rs));
  }

  /**
    Idempotence of the import: running it a second time over the same config
    and source leaves the store exactly as the first run left it: no node or
    relationship is duplicated, node properties keep the latest values and
    relationship properties are not rewritten.
   */
  lemma ImportIdempotent(config: Config, schema: RelationalSchema, source: Source, n: nat, g: Graph)
    requires n > 0
    ensures var fs := ImportTrace(config, schema, source, n).flushes;
      ApplyAll(ApplyAll(g, fs), fs) == ApplyAll(g, fs)
  {
    var nodes := NodePhase(config, source, n);
    var rels := RelPhase(config, schema, source, n);
    NodePhaseShape(config, source, n);
    RelPhaseShape(config, schema, source, n);
    if nodes.running {
      PhasedIdempotent(g, nodes.flushes, rels.flushes);
    } else {
      PhasedIdempotent(g, nodes.flushes, []);
      assert nodes.flushes + [] == nodes.flushes;
    }
  }

  /** Flushes of converted node batches and relationship batches keep the store invariant. */
  lemma {:induction false} ApplyAllWellFormed(g: Graph, fs: seq<Flush>)
    requires WellFormed(g) && forall f :: f in fs ==> NeutralFlush(f)
    ensures WellFormed(ApplyAll(g, fs))
  {
    if |fs| > 0 {
      var prefix := fs[..|fs| - 1];
      var last := fs[|fs| - 1];
      ApplyAllLast(g, fs);
      assert forall f :: f in prefix ==> f in fs;
      assert last in fs;
      ApplyAllWellFormed(g, prefix);
      match last
      case NodeFlush(nodeLabel, idProp, batch) => MergeNodesWellFormed(ApplyAll(g, prefix), nodeLabel, idProp, batch);
      case RelFlush(ends, rows) => MergeRelsWellFormed(ApplyAll(g, prefix), ends, rows);
    }
  }

  /**
    The import keeps the store invariant: every node carries its converted,
    non-null key value and no `Null` property, and every relationship joins
    two nodes of the store.
   */
  lemma ImportWellFormed(config: Config, schema: RelationalSchema, source: Source, n: nat, g: Graph)
    requires n > 0 && WellFormed(g)
    ensures WellFormed(ApplyAll(g, ImportTrace(config, schema, source, n).flushes))
  {
    NodePhaseShape(config, source, n);
    RelPhaseShape(config, schema, source, n);
    ApplyAllWellFormed(g, ImportTrace(config, schema, source, n).flushes);
  }
}
