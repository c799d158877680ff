/**
  Mapping inference (`generate_initial_config`): every table that is not a
  link table becomes a node mapping; a foreign key leaving an entity table
  becomes a direct `HAS_<TO>` relationship; a link table with at least two
  foreign keys becomes one relationship between the targets of its first two.
 */
module Inference {
  import opened Wrappers
  import opened Collections
  import opened Text
  import opened Schema
  import opened Mapping

  /** The node mapping of an entity table. */
  function NodeFor(t: Table): NodeMapping
  {
    NodeMapping(t.name, PascalCase(t.name), IdentityMap(t.columns), t.primaryKey)
  }

  /** `HAS_` followed by the upper-cased target table name. */
  function RelTypeFor(toTable: string): (r: string)
    ensures |r| == 4 + |toTable| && r[..4] == "HAS_" && r[4..] == Upper(toTable)
  {
    "HAS_" + Upper(toTable)
  }

  /** The direct relationship mapping of a foreign key leaving an entity table. */
  function DirectFor(fk: ForeignKey): RelMapping
  {
    Direct(fk.fromTable + "." + fk.fromColumn, RelTypeFor(fk.toTable), fk.fromTable, fk.toTable, "OUT", [])
  }

  /** The columns of a link table that no foreign key starts from. */
  function NonKeyColumns(cols: seq<string>, fkCols: seq<string>): (r: seq<string>)
    ensures forall c :: c in r <==> c in cols && c !in fkCols
    decreases |cols|
  {
    if |cols| == 0 then []
    else (if cols[0] in fkCols then [] else [cols[0]]) + NonKeyColumns(cols[1..], fkCols)
  }

  /** The link-table relationship mapping of `table`, built from its first two foreign keys. */
  function LinkFor(s: RelationalSchema, table: string): RelMapping
    requires |Outgoing(s.foreignKeys, table)| >= 2
  {
    var related := Outgoing(s.foreignKeys, table);
    var propCols := NonKeyColumns(ColumnsOf(s.tables, table), FkColumns(s.foreignKeys, table));
    Link(table, RelTypeFor(related[1].toTable), related[0].toTable, related[1].toTable, IdentityMap(propCols))
  }

  /** The first `k` tables that fail the link-table test, in table order. */
  function EntityTables(s: RelationalSchema, k: nat): seq<Table>
    requires k <= |s.tables|
  {
    if k == 0 then []
    else EntityTables(s, k - 1) + (if IsLinkTable(s, s.tables[k - 1]) then [] else [s.tables[k - 1]])
  }

  /** The node mappings, one per entity table, in table order. */
  function NodeMappings(s: RelationalSchema): seq<NodeMapping>
  {
    MapSeq(NodeFor, EntityTables(s, |s.tables|))
  }

  /** Foreign key `i` is the first of the list to leave its table. */
  predicate FirstFromItsTable(fks: seq<ForeignKey>, i: nat)
    requires i < |fks|
  {
    forall j :: 0 <= j < i ==> fks[j].fromTable != fks[i].fromTable
  }

  /** A keyless or link table that has at least two outgoing foreign keys. */
  predicate LinkCandidate(s: RelationalSchema, table: string)
  {
    !IsEntity(s, table) && |Outgoing(s.foreignKeys, table)| >= 2
  }

  /**
    What foreign key `i` contributes: a direct relationship when it leaves an
    entity table, the link relationship of its table when it is the first
    foreign key of a link candidate, and nothing otherwise.
   */
  function RelsAt(s: RelationalSchema, i: nat): seq<RelMapping>
    requires i < |s.foreignKeys|
  {
    var fk := s.foreignKeys[i];
    if IsEntity(s, fk.fromTable) then [DirectFor(fk)]
    else if LinkCandidate(s, fk.fromTable) && FirstFromItsTable(s.foreignKeys, i) then [LinkFor(s, fk.fromTable)]
    else []
  }

  function RelsUpTo(s: RelationalSchema, k: nat): seq<RelMapping>
    requires k <= |s.foreignKeys|
  {
    if k == 0 then [] else RelsUpTo(s, k - 1) + RelsAt(s, k - 1)
  }

  function RelMappings(s: RelationalSchema): seq<RelMapping>
  {
    RelsUpTo(s, |s.foreignKeys|)
  }

  /** The config inference produces for a schema. */
  function InitialConfig(s: RelationalSchema): Config
  {
    Config(NodeMappings(s), RelMappings(s))
  }

  /** The entity tables among the first `k` are exactly the first `k` tables that fail the link test. */
  lemma {:induction false} EntityTablesMembers(s: RelationalSchema, k: nat, t: Table)
    requires k <= |s.tables|
    ensures t in EntityTables(s, k) <==> t in s.tables[..k] && !IsLinkTable(s, t)
  {
    if k > 0 {
      var x := s.tables[k - 1];
      var step := if IsLinkTable(s, x) then [] else [x];
      EntityTablesMembers(s, k - 1, t);
      assert EntityTables(s, k) == EntityTables(s, k - 1) + step;
      assert s.tables[..k] == s.tables[..k - 1] + [x];
      assert t in step <==> t == x && !IsLinkTable(s, x);
    }
  }

  /** A node mapping is the mapping of some table that fails the link test, and back. */
  lemma NodeMappingsMembers(s: RelationalSchema, n: NodeMapping)
    ensures n in NodeMappings(s) <==> exists t :: t in s.tables && !IsLinkTable(s, t) && n == NodeFor(t)
  {
    var entities := EntityTables(s, |s.tables|);
    assert n in NodeMappings(s) <==> exists t :: t in entities && n == NodeFor(t) by {
      MapSeqMembers(NodeFor, entities, n);
    }
    assert forall t :: t in entities <==> t in s.tables && !IsLinkTable(s, t) by {
      forall t ensures t in entities <==> t in s.tables && !IsLinkTable(s, t) {
        EntityTablesMembers(s, |s.tables|, t);
        assert s.tables[..|s.tables|] == s.tables;
      }
    }
  }

  /**
    The entity test on the generated nodes agrees with the schema: some node
    mapping has `table` as its source exactly when some table of that name is
    not a link table.
   */
  lemma NodeSourceIffEntity(s: RelationalSchema, table: string)
    ensures (exists n :: n in NodeMappings(s) && n.sourceTable == table) <==> IsEntity(s, table)
  {
    if IsEntity(s, table) {
      var i :| 0 <= i < |s.tables| && EntityAt(s, i, table);
      NodeMappingsMembers(s, NodeFor(s.tables[i]));
    }
    if exists n :: n in NodeMappings(s) && n.sourceTable == table {
      var n :| n in NodeMappings(s) && n.sourceTable == table;
      NodeMappingsMembers(s, n);
      var t :| t in s.tables && !IsLinkTable(s, t) && n == NodeFor(t);
      var i :| 0 <= i < |s.tables| && s.tables[i] == t;
      assert EntityAt(s, i, table);
    }
  }

  /**
    The node mappings are those of the non-link tables, each with the table
    as its source, the PascalCase label (no underscore in it), the identity
    map over exactly the table's columns and the table's primary key.
   */
  lemma NodeMappingContents(s: RelationalSchema, n: NodeMapping)
    ensures n in NodeMappings(s) <==> exists t :: t in s.tables && !IsLinkTable(s, t) && n == NodeFor(t)
    ensures n in NodeMappings(s) ==>
      && (exists t :: t in s.tables && t.name == n.sourceTable && n.primaryKey == t.primaryKey
           && Sources(n.properties) == Elements(t.columns))
      && n.nodeLabel == PascalCase(n.sourceTable)
      && '_' !in n.nodeLabel
      && Lower(n.nodeLabel) == Lower(Strip(n.sourceTable, '_'))
      && (forall i :: 0 <= i < |n.properties| ==> n.properties[i].0 == n.properties[i].1)
  {
    NodeMappingsMembers(s, n);
    if n in NodeMappings(s) {
      var t :| t in s.tables && !IsLinkTable(s, t) && n == NodeFor(t);
      IdentityMapFacts(t.columns);
      PascalCaseSpelling(n.sourceTable);
    }
  }

  /** The direct mappings among a list of relationship mappings, in order. */
  function Directs(rels: seq<RelMapping>): seq<RelMapping>
  {
    if |rels| == 0 then []
    else Directs(rels[..|rels| - 1]) + (if rels[|rels| - 1].Direct? then [rels[|rels| - 1]] else [])
  }

  lemma {:induction false} DirectsConcat(a: seq<RelMapping>, b: seq<RelMapping>)
    ensures Directs(a + b) == Directs(a) + Directs(b)
    decreases |b|
  {
    if |b| == 0 {
      assert a + b == a;
    } else {
      assert (a + b)[..|a + b| - 1] == a + b[..|b| - 1];
      DirectsConcat(a, b[..|b| - 1]);
    }
  }

  /** The direct mapping foreign key `i` contributes: one when it leaves an entity table, none otherwise. */
  function DirectStep(s: RelationalSchema, i: nat): seq<RelMapping>
    requires i < |s.foreignKeys|
  {
    var fk := s.foreignKeys[i];
    if IsEntity(s, fk.fromTable) then [DirectFor(fk)] else []
  }

  /** One direct mapping per foreign key leaving an entity table, in list order, duplicates kept. */
  function EntityFkDirects(s: RelationalSchema, k: nat): seq<RelMapping>
    requires k <= |s.foreignKeys|
  {
    if k == 0 then [] else EntityFkDirects(s, k - 1) + DirectStep(s, k - 1)
  }

  /**
    The direct relationships are exactly one per foreign key leaving an entity
    table, in foreign-key order, and none for a foreign key leaving a link table.
   */
  lemma {:induction false} DirectRelationships(s: RelationalSchema, k: nat)
    requires k <= |s.foreignKeys|
    ensures Directs(RelsUpTo(s, k)) == EntityFkDirects(s, k)
  {
    if k > 0 {
      DirectRelationships(s, k - 1);
      DirectsUpToStep(s, k - 1);
      assert EntityFkDirects(s, k) == EntityFkDirects(s, k - 1) + DirectStep(s, k - 1);
    }
  }

  /** One more foreign key adds to the direct mappings exactly its direct step. */
  lemma DirectsUpToStep(s: RelationalSchema, i: nat)
    requires i < |s.foreignKeys|
    ensures Directs(RelsUpTo(s, i + 1)) == Directs(RelsUpTo(s, i)) + DirectStep(s, i)
  {
    DirectsConcat(RelsUpTo(s, i), RelsAt(s, i));
    DirectsOfStep(s, i);
  }

  lemma DirectsOfStep(s: RelationalSchema, i: nat)
    requires i < |s.foreignKeys|
    ensures Directs(RelsAt(s, i)) == DirectStep(s, i)
  {
    var r := RelsAt(s, i);
    if IsEntity(s, s.foreignKeys[i].fromTable) {
      assert r == [DirectFor(s.foreignKeys[i])];
      assert r[..0] == [];
    } else if r != [] {
      assert r == [LinkFor(s, s.foreignKeys[i].fromTable)];
      assert r[..0] == [];
    }
  }

  /** The `"table.column"` key of a direct mapping splits back into its table and column. */
  lemma DirectSourceKeyRoundTrip(fk: ForeignKey)
    requires '.' !in fk.fromTable && '.' !in fk.fromColumn
    ensures Split(DirectFor(fk).sourceForeignKey, '.') == [fk.fromTable, fk.fromColumn]
  {
    DottedRoundTrip(fk.fromTable, fk.fromColumn);
  }

  /** The link-table mapping of `table` is in the first `k` results exactly when one of the first `k` keys leaves it. */
  lemma {:induction false} LinkPresence(s: RelationalSchema, k: nat, table: string)
    requires k <= |s.foreignKeys|
    ensures (exists r :: r in RelsUpTo(s, k) && r.Link? && r.sourceLinkTable == table) <==>
      (LinkCandidate(s, table) && exists j :: 0 <= j < k && s.foreignKeys[j].fromTable == table)
  {
    if k > 0 {
      LinkPresence(s, k - 1, table);
      var fk := s.foreignKeys[k - 1];
      if fk.fromTable == table && LinkCandidate(s, table) && !FirstFromItsTable(s.foreignKeys, k - 1) {
        var j :| 0 <= j < k - 1 && s.foreignKeys[j].fromTable == table;
      }
      if LinkCandidate(s, table) && exists j :: 0 <= j < k && s.foreignKeys[j].fromTable == table {
        if fk.fromTable == table && FirstFromItsTable(s.foreignKeys, k - 1) {
          assert LinkFor(s, table) in RelsUpTo(s, k);
        }
      }
    }
  }

  /** Every link mapping among the first `k` comes from a candidate link table and is that table's `LinkFor`. */
  lemma {:induction false} LinkShape(s: RelationalSchema, k: nat)
    requires k <= |s.foreignKeys|
    ensures forall r :: r in RelsUpTo(s, k) && r.Link? ==>
      LinkCandidate(s, r.sourceLinkTable) && r == LinkFor(s, r.sourceLinkTable)
  {
    if k > 0 {
      LinkShape(s, k - 1);
    }
  }

  /** No two link mappings come from the same link table. */
  lemma {:induction false} LinkUnique(s: RelationalSchema, k: nat)
    requires k <= |s.foreignKeys|
    ensures var rels := RelsUpTo(s, k);
      forall i, j :: 0 <= i < j < |rels| && rels[i].Link? && rels[j].Link? ==>
        rels[i].sourceLinkTable != rels[j].sourceLinkTable
  {
    if k > 0 {
      LinkUnique(s, k - 1);
      var prev := RelsUpTo(s, k - 1);
      var rels := RelsUpTo(s, k);
      var at := RelsAt(s, k - 1);
      if |at| == 1 && at[0].Link? {
        var table := at[0].sourceLinkTable;
        assert FirstFromItsTable(s.foreignKeys, k - 1) && s.foreignKeys[k - 1].fromTable == table;
        LinkPresence(s, k - 1, table);
        forall i | 0 <= i < |prev| && prev[i].Link? ensures prev[i].sourceLinkTable != table {
          assert prev[i] in prev;
        }
      }
      forall i, j | 0 <= i < j < |rels| && rels[i].Link? && rels[j].Link?
        ensures rels[i].sourceLinkTable != rels[j].sourceLinkTable
      {
        if j < |prev| {
          assert rels[i] == prev[i] && rels[j] == prev[j];
        } else {
          assert rels[i] == prev[i];
          assert rels[j] == at[0];
        }
      }
    }
  }

  /**
    The link mappings: one for each candidate link table some foreign key
    leaves, none for any other table (so a keyless table with fewer than two
    foreign keys yields nothing), and at most one per link table.
   */
  lemma LinkRelationships(s: RelationalSchema, table: string)
    ensures (exists r :: r in RelMappings(s) && r.Link? && r.sourceLinkTable == table) <==>
      (LinkCandidate(s, table) && exists f :: f in s.foreignKeys && f.fromTable == table)
    ensures forall r :: r in RelMappings(s) && r.Link? && r.sourceLinkTable == table ==> r == LinkFor(s, table)
    ensures var rels := RelMappings(s);
      forall i, j :: 0 <= i < j < |rels| && rels[i].Link? && rels[j].Link? ==>
        rels[i].sourceLinkTable != rels[j].sourceLinkTable
  {
    LinkPresence(s, |s.foreignKeys|, table);
    LinkShape(s, |s.foreignKeys|);
    LinkUnique(s, |s.foreignKeys|);
    assert RelMappings(s) == RelsUpTo(s, |s.foreignKeys|);
    if LinkCandidate(s, table) && exists f :: f in s.foreignKeys && f.fromTable == table {
      var f :| f in s.foreignKeys && f.fromTable == table;
      var j :| 0 <= j < |s.foreignKeys| && s.foreignKeys[j] == f;
    }
  }

  /**
    The endpoints and type of a link mapping come from the table's first two
    foreign keys in list order; its properties are the columns no foreign key
    starts from.
   */
  lemma LinkForContents(s: RelationalSchema, table: string)
    requires |Outgoing(s.foreignKeys, table)| >= 2
    ensures var r := LinkFor(s, table); var out := Outgoing(s.foreignKeys, table);
      && r.fromNodeTable == out[0].toTable && r.toNodeTable == out[1].toTable
      && r.relType == "HAS_" + Upper(out[1].toTable)
      && (forall c :: c in Sources(r.properties) <==>
            c in ColumnsOf(s.tables, table) && !exists f :: f in s.foreignKeys && f.fromTable == table && f.fromColumn == c)
  {
    FkColumnsMembers(s.foreignKeys, table);
    IdentityMapFacts(NonKeyColumns(ColumnsOf(s.tables, table), FkColumns(s.foreignKeys, table)));
  }

  /** On a foreign key leaving a link candidate, the "already listed" test agrees with being the first key from that table. */
  lemma LinkAlreadyListed(s: RelationalSchema, i: nat)
    requires i < |s.foreignKeys| && LinkCandidate(s, s.foreignKeys[i].fromTable)
    ensures (exists r :: r in RelsUpTo(s, i) && r.Link? && r.sourceLinkTable == s.foreignKeys[i].fromTable) <==>
      !FirstFromItsTable(s.foreignKeys, i)
  {
    LinkPresence(s, i, s.foreignKeys[i].fromTable);
  }

  /**
    The node pass of `generate_initial_config`: one mapping appended per
    table that fails the link-table test, in table order.
   */
  method InferNodes(s: RelationalSchema) returns (nodes: seq<NodeMapping>)
    ensures nodes == NodeMappings(s)
  {
    nodes := [];
    for k := 0 to |s.tables|
      invariant nodes == MapSeq(NodeFor, EntityTables(s, k))
    {
      var table := s.tables[k];
      var isLink := LinkTest(s, table);
      NodesStep(s, k);
      if isLink {
        continue;
      }
      nodes := nodes + [NodeFor(table)];
    }
  }

  /** One more table adds its node mapping exactly when it fails the link test. */
  lemma NodesStep(s: RelationalSchema, k: nat)
    requires k < |s.tables|
    ensures MapSeq(NodeFor, EntityTables(s, k + 1)) ==
      MapSeq(NodeFor, EntityTables(s, k)) + (if IsLinkTable(s, s.tables[k]) then [] else [NodeFor(s.tables[k])])
  {
    if IsLinkTable(s, s.tables[k]) {
      assert EntityTables(s, k + 1) == EntityTables(s, k);
    } else {
      assert EntityTables(s, k + 1) == EntityTables(s, k) + [s.tables[k]];
      MapSeqSnoc(NodeFor, EntityTables(s, k), s.tables[k]);
    }
  }

  /** The link-table test as the node pass writes it: the set of outgoing foreign-key columns is as large as the column list, and there is no primary key. */
  method LinkTest(s: RelationalSchema, table: Table) returns (isLink: bool)
    ensures isLink == IsLinkTable(s, table)
  {
    var fkColumns := FkColumns(s.foreignKeys, table.name);
    DistinctCountIsCardinality(fkColumns);
    isLink := |table.columns| == |Elements(fkColumns)| && table.primaryKey.None?;
  }

  /**
    The relationship pass of `generate_initial_config`: it walks the foreign
    keys and appends a direct mapping, or the link mapping of a keyless table
    unless one for that table is already in the list.
   */
  method InferRelationships(s: RelationalSchema, nodes: seq<NodeMapping>) returns (rels: seq<RelMapping>)
    requires nodes == NodeMappings(s)
    ensures rels == RelMappings(s)
  {
    rels := [];
    for i := 0 to |s.foreignKeys|
      invariant rels == RelsUpTo(s, i)
    {
      var fk := s.foreignKeys[i];
      var fromTableIsEntity := exists n :: n in nodes && n.sourceTable == fk.fromTable;
      NodeSourceIffEntity(s, fk.fromTable);
      if !fromTableIsEntity {
        var relatedFks := Outgoing(s.foreignKeys, fk.fromTable);
        if |relatedFks| >= 2 {
          var rel := LinkFor(s, fk.fromTable);
          LinkAlreadyListed(s, i);
          if !exists r :: r in rels && r.Link? && r.sourceLinkTable == rel.sourceLinkTable {
            rels := rels + [rel];
          }
        }
      } else {
        var rel := Direct(fk.fromTable + "." + fk.fromColumn, "HAS_" + Upper(fk.toTable),
                          fk.fromTable, fk.toTable, "OUT", []);
        rels := rels + [rel];
      }
    }
  }

  /** `generate_initial_config` without the file write: the node pass, then the relationship pass. */
  method GenerateInitialConfig(s: RelationalSchema) returns (config: Config)
    ensures config == InitialConfig(s)
  {
    var nodes := InferNodes(s);
    var rels := InferRelationships(s, nodes);
    config := Config(nodes, rels);
  }
}
