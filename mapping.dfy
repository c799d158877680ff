/**
  The mapping config shared by inference and import: one node mapping per
  entity table, and direct or link-table relationship mappings.
 */
module Mapping {
  import opened Wrappers
  import opened Collections

  /** An ordered `{column: property}` dictionary, in insertion order. */
  type PropertyMapping = seq<(string, string)>

  datatype NodeMapping = NodeMapping(
    sourceTable: string,
    nodeLabel: string,
    properties: PropertyMapping,
    primaryKey: Option<string>)

  /**
    A relationship mapping: `Direct` comes from one foreign key of an entity
    table (`sourceForeignKey` is `"table.column"`), `Link` from a link table.
   */
  datatype RelMapping =
    | Direct(
        sourceForeignKey: string,
        relType: string,
        fromNodeTable: string,
        toNodeTable: string,
        direction: string,
        properties: PropertyMapping)
    | Link(
        sourceLinkTable: string,
        relType: string,
        fromNodeTable: string,
        toNodeTable: string,
        properties: PropertyMapping)

  datatype Config = Config(nodes: seq<NodeMapping>, relationships: seq<RelMapping>)

  function Sources(pm: PropertyMapping): set<string>
  {
    set i | 0 <= i < |pm| :: pm[i].0
  }

  function Targets(pm: PropertyMapping): set<string>
  {
    set i | 0 <= i < |pm| :: pm[i].1
  }

  lemma SourcesSnoc(pm: PropertyMapping, p: (string, string))
    ensures Sources(pm + [p]) == Sources(pm) + {p.0}
    ensures Targets(pm + [p]) == Targets(pm) + {p.1}
  {
    var ext := pm + [p];
    assert forall i :: 0 <= i < |pm| ==> ext[i] == pm[i];
    assert ext[|pm|] == p;
  }

  /**
    `{col: col for col in cols}`, built left to right: a column seen before
    keeps its first place.
   */
  function IdentityMap(cols: seq<string>): PropertyMapping
  {
    if |cols| == 0 then []
    else
      var prefix := cols[..|cols| - 1];
      var c := cols[|cols| - 1];
      if c in prefix then IdentityMap(prefix) else IdentityMap(prefix) + [(c, c)]
  }

  /**
    The identity map sends every column to itself, holds exactly the
    columns, each once, and keeps their order when they are distinct.
   */
  lemma {:induction false} IdentityMapFacts(cols: seq<string>)
    ensures var pm := IdentityMap(cols);
      && (forall i :: 0 <= i < |pm| ==> pm[i].0 == pm[i].1)
      && Sources(pm) == Elements(cols) && Targets(pm) == Elements(cols)
      && (forall i, j :: 0 <= i < j < |pm| ==> pm[i].0 != pm[j].0)
      && (Distinct(cols) ==> |pm| == |cols| && forall i :: 0 <= i < |cols| ==> pm[i].0 == cols[i])
  {
    if |cols| > 0 {
      var prefix := cols[..|cols| - 1];
      var c := cols[|cols| - 1];
      var pm0 := IdentityMap(prefix);
      IdentityMapFacts(prefix);
      assert cols == prefix + [c];
      assert Elements(cols) == Elements(prefix) + {c};
      if c in prefix {
        var j :| 0 <= j < |prefix| && prefix[j] == c;
        assert cols[j] == cols[|cols| - 1];
      } else {
        SourcesSnoc(pm0, (c, c));
        forall i | 0 <= i < |pm0| ensures pm0[i].0 != c {
          assert pm0[i].0 in Sources(pm0);
        }
        assert Distinct(cols) ==> Distinct(prefix);
      }
    }
  }
}
