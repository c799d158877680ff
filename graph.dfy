/**
  The target property-graph store, as the two batch queries of the importer
  use it. A node is identified by its label, its key property and the key
  value it was merged on; a relationship by its type and its two endpoints.

  - `UNWIND $props AS map MERGE (n:L {k: map.k}) SET n += map` is a
    sequence of upserts, one per row in batch order: find or create the
    node, then overlay the row (a `Null` value removes the property).
  - `UNWIND $data AS map MATCH (a ...) MATCH (b ...) MERGE (a)-[r:T]->(b)
    ON CREATE SET r = map.props` is a sequence of create-if-absent writes:
    a row whose endpoints do not both match does nothing, and an existing
    relationship keeps its properties.
 */
module GraphStore {
  import opened Wrappers
  import opened Values
  import opened Rows

  datatype NodeKey = NodeKey(nodeLabel: string, keyProp: string, id: Value)

  datatype RelKey = RelKey(relType: string, from: NodeKey, to: NodeKey)

  datatype Graph = Graph(nodes: map<NodeKey, Props>, rels: map<RelKey, Props>)

  // ---------------------------------------------------------------------------
  // Nodes
  // ---------------------------------------------------------------------------

  /** `SET n += m`: the keys of `m` are overwritten, a `Null` among them removes the property. */
  function Overlay(p: Props, m: Props): Props
  {
    map k | k in p.Keys + m.Keys && (k in m ==> !m[k].Null?) :: if k in m then m[k] else p[k]
  }

  /** Overlaying is merging the two maps and writing once: a later write of a key wins. */
  lemma OverlayCompose(p: Props, m1: Props, m2: Props)
    ensures Overlay(Overlay(p, m1), m2) == Overlay(p, m1 + m2)
  {
  }

  /** Setting the same properties twice is setting them once. */
  lemma OverlayIdempotent(p: Props, m: Props)
    ensures Overlay(Overlay(p, m), m) == Overlay(p, m)
  {
    OverlayCompose(p, m, m);
    assert m + m == m;
  }

  /**
    Overwrites only the keys present in the row, removes those the row sets
    to `Null`, keeps every other property and adds nothing else.
   */
  lemma OverlayFrame(p: Props, m: Props)
    ensures forall k :: k !in m && k in p ==> k in Overlay(p, m) && Overlay(p, m)[k] == p[k]
    ensures forall k :: k in m && !m[k].Null? ==> k in Overlay(p, m) && Overlay(p, m)[k] == m[k]
    ensures forall k :: k in m && m[k].Null? ==> k !in Overlay(p, m)
    ensures forall k :: k !in m && k !in p ==> k !in Overlay(p, m)
  {
  }

  /** `p.get(id_prop) is not None`: the row can be keyed. */
  predicate HasKey(idProp: Option<string>, p: Props)
  {
    idProp.Some? && idProp.value in p && !p[idProp.value].Null?
  }

  /** The rows the batch keeps, in order: those that can be keyed. */
  function ValidRows(idProp: Option<string>, batch: seq<Props>): (valid: seq<Props>)
    ensures |valid| <= |batch|
    ensures forall p :: p in valid <==> p in batch && HasKey(idProp, p)
  {
    if |batch| == 0 then []
    else
      var last := batch[|batch| - 1];
      assert batch == batch[..|batch| - 1] + [last];
      ValidRows(idProp, batch[..|batch| - 1]) + (if HasKey(idProp, last) then [last] else [])
  }

  /** Keeping the keyable rows commutes with cutting the batch in two: kept rows stay in batch order. */
  lemma {:induction false} ValidRowsConcat(idProp: Option<string>, a: seq<Props>, b: seq<Props>)
    ensures ValidRows(idProp, a + b) == ValidRows(idProp, a) + ValidRows(idProp, b)
    decreases |b|
  {
    if |b| == 0 {
      assert a + b == a;
    } else {
      var c, b' := a + b, b[..|b| - 1];
      var last := b[|b| - 1];
      var kept := if HasKey(idProp, last) then [last] else [];
      assert c[..|c| - 1] == a + b' && c[|c| - 1] == last;
      assert ValidRows(idProp, c) == ValidRows(idProp, a + b') + kept;
      assert ValidRows(idProp, b) == ValidRows(idProp, b') + kept;
      ValidRowsConcat(idProp, a, b');
    }
  }

  /** One `MERGE ... SET n += map` for one row. */
  datatype Upsert = Upsert(key: NodeKey, props: Props)

  /** The properties a node has before a write: none when it does not exist yet. */
  function Base(nodes: map<NodeKey, Props>, key: NodeKey): Props
  {
    if key in nodes then nodes[key] else map[]
  }

  function ApplyUpsert(nodes: map<NodeKey, Props>, u: Upsert): map<NodeKey, Props>
  {
    nodes[u.key := Overlay(Base(nodes, u.key), u.props)]
  }

  /** The upserts applied in order. */
  function ApplyUpserts(nodes: map<NodeKey, Props>, us: seq<Upsert>): map<NodeKey, Props>
  {
    if |us| == 0 then nodes else ApplyUpsert(ApplyUpserts(nodes, us[..|us| - 1]), us[|us| - 1])
  }

  /** The upserts of the kept rows of a batch: each row keyed by its value of `keyProp`. */
  function Upserts(nodeLabel: string, keyProp: string, valid: seq<Props>): (us: seq<Upsert>)
    requires forall p :: p in valid ==> keyProp in p
    ensures |us| == |valid|
    ensures forall i :: 0 <= i < |us| ==> us[i] == Upsert(NodeKey(nodeLabel, keyProp, valid[i][keyProp]), valid[i])
  {
    if |valid| == 0 then []
    else
      var last := valid[|valid| - 1];
      assert last in valid;
      Upserts(nodeLabel, keyProp, valid[..|valid| - 1]) + [Upsert(NodeKey(nodeLabel, keyProp, last[keyProp]), last)]
  }

  /** The upserts of a batch: none without keyable rows, else one per keyable row, in batch order. */
  function BatchUpserts(nodeLabel: string, idProp: Option<string>, batch: seq<Props>): (us: seq<Upsert>)
    ensures |us| == |ValidRows(idProp, batch)|
    ensures forall i :: 0 <= i < |us| ==> us[i].props == ValidRows(idProp, batch)[i]
    ensures forall i :: 0 <= i < |us| ==>
      && us[i].props in batch && HasKey(idProp, us[i].props)
      && us[i].key == NodeKey(nodeLabel, idProp.value, us[i].props[idProp.value])
  {
    var valid := ValidRows(idProp, batch);
    if |valid| == 0 then []
    else
      assert valid[0] in valid;
      Upserts(nodeLabel, idProp.value, valid)
  }

  /** `UNWIND` over the batch: each keyable row upserted under its key value, in batch order; other rows skipped. */
  function UpsertRows(nodes: map<NodeKey, Props>, nodeLabel: string, idProp: Option<string>, batch: seq<Props>): map<NodeKey, Props>
  {
    if |batch| == 0 then nodes
    else
      var before := UpsertRows(nodes, nodeLabel, idProp, batch[..|batch| - 1]);
      var row := batch[|batch| - 1];
      if HasKey(idProp, row) then ApplyUpsert(before, Upsert(NodeKey(nodeLabel, idProp.value, row[idProp.value]), row))
      else before
  }

  /** The last row of a batch adds its upsert after those of the rows before it, when it can be keyed. */
  lemma BatchUpsertsLast(nodeLabel: string, idProp: Option<string>, batch: seq<Props>)
    requires |batch| > 0
    ensures var row := batch[|batch| - 1];
      BatchUpserts(nodeLabel, idProp, batch) == BatchUpserts(nodeLabel, idProp, batch[..|batch| - 1]) +
        (if HasKey(idProp, row) then [Upsert(NodeKey(nodeLabel, idProp.value, row[idProp.value]), row)] else [])
  {
    var row := batch[|batch| - 1];
    var vpre := ValidRows(idProp, batch[..|batch| - 1]);
    var valid := ValidRows(idProp, batch);
    if HasKey(idProp, row) {
      assert valid == vpre + [row];
      assert valid[..|valid| - 1] == vpre;
    } else {
      assert valid == vpre;
    }
  }

  /** Upserting the rows one by one is applying the batch's upserts in order. */
  lemma {:induction false} UpsertRowsIsUpserts(nodes: map<NodeKey, Props>, nodeLabel: string, idProp: Option<string>, batch: seq<Props>)
    ensures UpsertRows(nodes, nodeLabel, idProp, batch) == ApplyUpserts(nodes, BatchUpserts(nodeLabel, idProp, batch))
  {
    if |batch| > 0 {
      var prefix := batch[..|batch| - 1];
      var row := batch[|batch| - 1];
      UpsertRowsIsUpserts(nodes, nodeLabel, idProp, prefix);
      BatchUpsertsLast(nodeLabel, idProp, batch);
      var before := BatchUpserts(nodeLabel, idProp, prefix);
      if HasKey(idProp, row) {
        var u := Upsert(NodeKey(nodeLabel, idProp.value, row[idProp.value]), row);
        assert (before + [u])[..|before|] == before;
      } else {
        assert before + [] == before;
      }
    }
  }

  /** `_merge_nodes_batch` on the store: the batch's keyable rows upserted in order; relationships do not change. */
  function MergeNodes(g: Graph, nodeLabel: string, idProp: Option<string>, batch: seq<Props>): (r: Graph)
    ensures r.rels == g.rels
    ensures g.nodes.Keys <= r.nodes.Keys
  {
    UpsertRowsIsUpserts(g.nodes, nodeLabel, idProp, batch);
    ApplyUpsertsResult(g.nodes, BatchUpserts(nodeLabel, idProp, batch));
    Graph(UpsertRows(g.nodes, nodeLabel, idProp, batch), g.rels)
  }

  function KeysOf(us: seq<Upsert>): set<NodeKey>
  {
    set i | 0 <= i < |us| :: us[i].key
  }

  /** All the properties the upserts write to `key`, merged in order. */
  function Combined(us: seq<Upsert>, key: NodeKey): Props
  {
    if |us| == 0 then map[]
    else
      var last := us[|us| - 1];
      Combined(us[..|us| - 1], key) + (if last.key == key then last.props else map[])
  }

  lemma KeysOfLast(us: seq<Upsert>)
    requires |us| > 0
    ensures KeysOf(us) == KeysOf(us[..|us| - 1]) + {us[|us| - 1].key}
  {
    var prefix := us[..|us| - 1];
    forall k | k in KeysOf(us) ensures k in KeysOf(prefix) + {us[|us| - 1].key} {
      var i :| 0 <= i < |us| && us[i].key == k;
      if i < |prefix| {
        assert prefix[i].key == k;
      }
    }
    forall k | k in KeysOf(prefix) ensures k in KeysOf(us) {
      var i :| 0 <= i < |prefix| && prefix[i].key == k;
      assert us[i].key == k;
    }
  }

  lemma {:induction false} CombinedOfUntouched(us: seq<Upsert>, key: NodeKey)
    requires key !in KeysOf(us)
    ensures Combined(us, key) == map[]
  {
    if |us| > 0 {
      KeysOfLast(us);
      CombinedOfUntouched(us[..|us| - 1], key);
    }
  }

  lemma OverlayNothing(p: Props)
    ensures Overlay(p, map[]) == p
  {
  }

  /**
    One node after a sequence of upserts: it exists when it existed or was
    written, and what it holds is what it held overlaid with everything
    written to it, in order.
   */
  lemma {:induction false} ApplyUpsertsAt(nodes: map<NodeKey, Props>, us: seq<Upsert>, k: NodeKey)
    ensures k in ApplyUpserts(nodes, us) <==> k in nodes || k in KeysOf(us)
    ensures Base(ApplyUpserts(nodes, us), k) == Overlay(Base(nodes, k), Combined(us, k))
  {
    if |us| == 0 {
      OverlayNothing(Base(nodes, k));
    } else {
      var prefix := us[..|us| - 1];
      var u := us[|us| - 1];
      ApplyUpsertsAt(nodes, prefix, k);
      KeysOfLast(us);
      var before := ApplyUpserts(nodes, prefix);
      assert ApplyUpserts(nodes, us) == before[u.key := Overlay(Base(before, u.key), u.props)];
      if k == u.key {
        assert Combined(us, k) == Combined(prefix, k) + u.props;
        OverlayCompose(Base(nodes, k), Combined(prefix, k), u.props);
      } else {
        assert Combined(us, k) == Combined(prefix, k) + map[];
        assert Combined(prefix, k) + map[] == Combined(prefix, k);
      }
    }
  }

  /**
    The store after a sequence of upserts: the keys written are added, every
    other node is untouched, and a written node holds what it had before
    overlaid with everything written to it, in order.
   */
  lemma ApplyUpsertsResult(nodes: map<NodeKey, Props>, us: seq<Upsert>)
    ensures ApplyUpserts(nodes, us).Keys == nodes.Keys + KeysOf(us)
    ensures forall k :: k in KeysOf(us) ==> ApplyUpserts(nodes, us)[k] == Overlay(Base(nodes, k), Combined(us, k))
    ensures forall k :: k in nodes && k !in KeysOf(us) ==> ApplyUpserts(nodes, us)[k] == nodes[k]
  {
    var after := ApplyUpserts(nodes, us);
    forall k ensures k in after <==> k in nodes || k in KeysOf(us) {
      ApplyUpsertsAt(nodes, us, k);
    }
    forall k | k in KeysOf(us) ensures after[k] == Overlay(Base(nodes, k), Combined(us, k)) {
      ApplyUpsertsAt(nodes, us, k);
    }
    forall k | k in nodes && k !in KeysOf(us) ensures after[k] == nodes[k] {
      ApplyUpsertsAt(nodes, us, k);
      CombinedOfUntouched(us, k);
      OverlayNothing(nodes[k]);
    }
  }

  /** Applying the same upserts twice gives the store applying them once gives. */
  lemma ApplyUpsertsIdempotent(nodes: map<NodeKey, Props>, us: seq<Upsert>)
    ensures ApplyUpserts(ApplyUpserts(nodes, us), us) == ApplyUpserts(nodes, us)
  {
    var once := ApplyUpserts(nodes, us);
    var twice := ApplyUpserts(once, us);
    ApplyUpsertsResult(nodes, us);
    ApplyUpsertsResult(once, us);
    forall k | k in KeysOf(us) ensures twice[k] == once[k] {
      OverlayIdempotent(Base(nodes, k), Combined(us, k));
    }
  }

  /** Upserts in two runs are the upserts of the concatenation: batch boundaries do not matter. */
  lemma {:induction false} ApplyUpsertsConcat(nodes: map<NodeKey, Props>, a: seq<Upsert>, b: seq<Upsert>)
    ensures ApplyUpserts(nodes, a + b) == ApplyUpserts(ApplyUpserts(nodes, a), b)
    decreases |b|
  {
    if |b| == 0 {
      assert a + b == a;
    } else {
      var c := a + b;
      assert c[..|c| - 1] == a + b[..|b| - 1];
      ApplyUpsertsConcat(nodes, a, b[..|b| - 1]);
    }
  }

  /**
    Later row wins: a property that upsert `j` writes to its key and no later
    upsert of that key writes is in the merged writes with upsert `j`'s value.
   */
  lemma {:induction false} CombinedLaterWins(us: seq<Upsert>, j: nat, prop: string)
    requires j < |us| && prop in us[j].props
    requires forall i :: j < i < |us| && us[i].key == us[j].key ==> prop !in us[i].props
    ensures prop in Combined(us, us[j].key) && Combined(us, us[j].key)[prop] == us[j].props[prop]
  {
    var prefix := us[..|us| - 1];
    if j < |us| - 1 {
      assert prefix[j] == us[j];
      CombinedLaterWins(prefix, j, prop);
    }
  }

  /**
    The node a batch writes ends with the value the last row for its key
    gives each property, or without the property when that value is `Null`.
   */
  lemma NodeLaterRowWins(nodes: map<NodeKey, Props>, us: seq<Upsert>, j: nat, prop: string)
    requires j < |us| && prop in us[j].props
    requires forall i :: j < i < |us| && us[i].key == us[j].key ==> prop !in us[i].props
    ensures var after := ApplyUpserts(nodes, us);
      && us[j].key in after
      && (us[j].props[prop].Null? ==> prop !in after[us[j].key])
      && (!us[j].props[prop].Null? ==> prop in after[us[j].key] && after[us[j].key][prop] == us[j].props[prop])
  {
    ApplyUpsertsResult(nodes, us);
    CombinedLaterWins(us, j, prop);
    assert us[j].key in KeysOf(us);
  }

  /** A keyable row sits in the kept rows between those kept before it and those kept after it. */
  lemma ValidRowsAround(idProp: Option<string>, batch: seq<Props>, j: nat)
    requires j < |batch| && HasKey(idProp, batch[j])
    ensures ValidRows(idProp, batch) == ValidRows(idProp, batch[..j]) + [batch[j]] + ValidRows(idProp, batch[j + 1..])
  {
    var pre, row, post := batch[..j], batch[j], batch[j + 1..];
    assert batch == pre + [row] + post;
    ValidRowsConcat(idProp, pre + [row], post);
    ValidRowsConcat(idProp, pre, [row]);
    assert ValidRows(idProp, [row]) == [row] by {
      assert [row][..0] == ValidRows(idProp, []);
    }
  }

  /** Later row wins over the kept rows `pre + [row] + post` of a batch, keyed by `keyProp`. */
  lemma UpsertsLaterRowWins(nodes: map<NodeKey, Props>, nodeLabel: string, keyProp: string,
                            pre: seq<Props>, row: Props, post: seq<Props>, prop: string)
    requires forall p :: p in pre + [row] + post ==> keyProp in p
    requires prop in row
    requires forall p :: p in post && p[keyProp] == row[keyProp] ==> prop !in p
    ensures var key := NodeKey(nodeLabel, keyProp, row[keyProp]);
      var after := ApplyUpserts(nodes, Upserts(nodeLabel, keyProp, pre + [row] + post));
      && key in after
      && (row[prop].Null? ==> prop !in after[key])
      && (!row[prop].Null? ==> prop in after[key] && after[key][prop] == row[prop])
  {
    var valid := pre + [row] + post;
    var us := Upserts(nodeLabel, keyProp, valid);
    var m := |pre|;
    assert valid[m] == row;
    forall i | m < i < |us| && us[i].key == us[m].key ensures prop !in us[i].props {
      assert valid[i] == post[i - m - 1];
      assert valid[i] in post;
    }
    NodeLaterRowWins(nodes, us, m, prop);
  }

  /**
    Within one node batch the later row wins: a property that row `j` sets,
    and that no later row with the same key value sets, ends with row `j`'s
    value on that node, or is absent when the value is `Null`.
   */
  lemma MergeNodesLaterRowWins(g: Graph, nodeLabel: string, idProp: Option<string>, batch: seq<Props>, j: nat, prop: string)
    requires j < |batch| && HasKey(idProp, batch[j]) && prop in batch[j]
    requires forall i :: j < i < |batch| && HasKey(idProp, batch[i]) && batch[i][idProp.value] == batch[j][idProp.value] ==>
      prop !in batch[i]
    ensures var key := NodeKey(nodeLabel, idProp.value, batch[j][idProp.value]);
      var after := MergeNodes(g, nodeLabel, idProp, batch).nodes;
      && key in after
      && (batch[j][prop].Null? ==> prop !in after[key])
      && (!batch[j][prop].Null? ==> prop in after[key] && after[key][prop] == batch[j][prop])
  {
    var keyProp, row, post := idProp.value, batch[j], batch[j + 1..];
    var vpre, vpost := ValidRows(idProp, batch[..j]), ValidRows(idProp, post);
    var valid := ValidRows(idProp, batch);
    assert valid == vpre + [row] + vpost by {
      ValidRowsAround(idProp, batch, j);
    }
    assert forall p :: p in vpost && p[keyProp] == row[keyProp] ==> prop !in p by {
      forall p | p in vpost && p[keyProp] == row[keyProp] ensures prop !in p {
        var r :| 0 <= r < |post| && post[r] == p;
        assert batch[j + 1 + r] == p;
      }
    }
    assert BatchUpserts(nodeLabel, idProp, batch) == Upserts(nodeLabel, keyProp, valid) by {
      assert valid[|vpre|] in valid;
    }
    UpsertsLaterRowWins(g.nodes, nodeLabel, keyProp, vpre, row, vpost, prop);
    UpsertRowsIsUpserts(g.nodes, nodeLabel, idProp, batch);
  }

  /**
    `_merge_nodes_batch` leaves the store as it was for an empty batch, for a
    mapping without an identifying property, and for a batch none of whose
    rows has a value for it.
   */
  lemma MergeNodesNothingToKey(g: Graph, nodeLabel: string, idProp: Option<string>, batch: seq<Props>)
    requires |batch| == 0 || idProp.None? || forall p: Props :: p in batch ==> idProp.value !in p || p[idProp.value].Null?
    ensures MergeNodes(g, nodeLabel, idProp, batch) == g
  {
    NoneKeyable(idProp, batch);
    UpsertRowsIsUpserts(g.nodes, nodeLabel, idProp, batch);
  }

  lemma {:induction false} NoneKeyable(idProp: Option<string>, batch: seq<Props>)
    requires forall p :: p in batch ==> !HasKey(idProp, p)
    ensures ValidRows(idProp, batch) == []
  {
    if |batch| > 0 {
      var prefix := batch[..|batch| - 1];
      assert batch[|batch| - 1] in batch;
      assert forall p :: p in prefix ==> p in batch;
      NoneKeyable(idProp, prefix);
    }
  }

  /** Merging the same node batch twice gives the store merging it once gives. */
  lemma MergeNodesIdempotent(g: Graph, nodeLabel: string, idProp: Option<string>, batch: seq<Props>)
    ensures MergeNodes(MergeNodes(g, nodeLabel, idProp, batch), nodeLabel, idProp, batch) == MergeNodes(g, nodeLabel, idProp, batch)
  {
    UpsertRowsIsUpserts(g.nodes, nodeLabel, idProp, batch);
    UpsertRowsIsUpserts(MergeNodes(g, nodeLabel, idProp, batch).nodes, nodeLabel, idProp, batch);
    ApplyUpsertsIdempotent(g.nodes, BatchUpserts(nodeLabel, idProp, batch));
  }

  /**
    A merged batch leaves every relationship and every node of another label
    or another key property untouched, and every kept row has the node
    `(label, key property, its key value)`.
   */
  lemma MergeNodesFrame(g: Graph, nodeLabel: string, idProp: Option<string>, batch: seq<Props>)
    ensures var after := MergeNodes(g, nodeLabel, idProp, batch);
      && after.rels == g.rels
      && g.nodes.Keys <= after.nodes.Keys
      && (forall k :: k in g.nodes && (k.nodeLabel != nodeLabel || Some(k.keyProp) != idProp) ==> after.nodes[k] == g.nodes[k])
      && (forall p :: p in batch && HasKey(idProp, p) ==> NodeKey(nodeLabel, idProp.value, p[idProp.value]) in after.nodes)
  {
    var us := BatchUpserts(nodeLabel, idProp, batch);
    UpsertRowsIsUpserts(g.nodes, nodeLabel, idProp, batch);
    ApplyUpsertsResult(g.nodes, us);
    forall k | k in KeysOf(us) ensures k.nodeLabel == nodeLabel && Some(k.keyProp) == idProp {
      var i :| 0 <= i < |us| && us[i].key == k;
    }
    forall p | p in batch && HasKey(idProp, p) ensures NodeKey(nodeLabel, idProp.value, p[idProp.value]) in KeysOf(us) {
      var valid := ValidRows(idProp, batch);
      var i :| 0 <= i < |valid| && valid[i] == p;
      assert us == Upserts(nodeLabel, idProp.value, valid);
      assert us[i].key == NodeKey(nodeLabel, idProp.value, p[idProp.value]);
    }
  }

  // ---------------------------------------------------------------------------
  // Relationships
  // ---------------------------------------------------------------------------

  /** The labels, key properties and type one relationship batch query names. */
  datatype RelEnds = RelEnds(fromLabel: string, fromKey: string, toLabel: string, toKey: string, relType: string)

  /** One row of a relationship batch: the two endpoint ids and the properties to set on creation. */
  datatype RelRow = RelRow(fromId: Value, toId: Value, props: Props)

  /** One `MERGE (a)-[r]->(b) ON CREATE SET r = props` between two matched nodes. */
  datatype Create = Create(key: RelKey, props: Props)

  /** Both `MATCH` clauses find a node: non-null ids that key existing nodes. */
  predicate EndsMatch(nodes: map<NodeKey, Props>, ends: RelEnds, row: RelRow)
  {
    && !row.fromId.Null? && !row.toId.Null?
    && NodeKey(ends.fromLabel, ends.fromKey, row.fromId) in nodes
    && NodeKey(ends.toLabel, ends.toKey, row.toId) in nodes
  }

  function RelKeyOf(ends: RelEnds, row: RelRow): RelKey
  {
    RelKey(ends.relType, NodeKey(ends.fromLabel, ends.fromKey, row.fromId), NodeKey(ends.toLabel, ends.toKey, row.toId))
  }

  /** The creates of a batch: one per row whose endpoints both match, in order. */
  function Creates(nodes: map<NodeKey, Props>, ends: RelEnds, rows: seq<RelRow>): seq<Create>
  {
    if |rows| == 0 then []
    else
      var last := rows[|rows| - 1];
      Creates(nodes, ends, rows[..|rows| - 1]) + (if EndsMatch(nodes, ends, last) then [Create(RelKeyOf(ends, last), last.props)] else [])
  }

  /**
    The creates of a batch are those of its matching rows and no others: each
    joins two existing nodes with the batch's type.
   */
  lemma {:induction false} CreatesMembers(nodes: map<NodeKey, Props>, ends: RelEnds, rows: seq<RelRow>)
    ensures var cs := Creates(nodes, ends, rows);
      && (forall c :: c in cs ==> c.key.from in nodes && c.key.to in nodes && c.key.relType == ends.relType)
      && (forall r :: r in rows && EndsMatch(nodes, ends, r) ==> Create(RelKeyOf(ends, r), r.props) in cs)
      && (forall c :: c in cs ==> exists r :: r in rows && EndsMatch(nodes, ends, r) && c == Create(RelKeyOf(ends, r), r.props))
  {
    if |rows| > 0 {
      var prefix := rows[..|rows| - 1];
      var last := rows[|rows| - 1];
      assert rows == prefix + [last];
      assert forall r :: r in prefix ==> r in rows;
      CreatesMembers(nodes, ends, prefix);
      var cs := Creates(nodes, ends, rows);
      var tail := if EndsMatch(nodes, ends, last) then [Create(RelKeyOf(ends, last), last.props)] else [];
      assert cs == Creates(nodes, ends, prefix) + tail;
      forall c | c in cs
        ensures exists r :: r in rows && EndsMatch(nodes, ends, r) && c == Create(RelKeyOf(ends, r), r.props)
      {
        if c in tail {
          assert last in rows;
        }
      }
    }
  }

  /** `SET r = props`: a property whose value is `Null` is not stored. */
  function DropNulls(p: Props): (r: Props)
    ensures forall k :: k in r <==> k in p && !p[k].Null?
    ensures forall k :: k in r ==> r[k] == p[k]
  {
    map k | k in p && !p[k].Null? :: p[k]
  }

  function ApplyCreate(rels: map<RelKey, Props>, c: Create): map<RelKey, Props>
  {
    if c.key in rels then rels else rels[c.key := DropNulls(c.props)]
  }

  /** The creates applied in order. */
  function ApplyCreates(rels: map<RelKey, Props>, cs: seq<Create>): map<RelKey, Props>
  {
    if |cs| == 0 then rels else ApplyCreate(ApplyCreates(rels, cs[..|cs| - 1]), cs[|cs| - 1])
  }

  /** `_merge_rels_batch` on the store: the creates of the batch's matching rows; nodes do not change. */
  function MergeRels(g: Graph, ends: RelEnds, rows: seq<RelRow>): (r: Graph)
    ensures r.nodes == g.nodes
    ensures g.rels.Keys <= r.rels.Keys
  {
    ApplyCreatesResult(g.rels, Creates(g.nodes, ends, rows));
    Graph(g.nodes, ApplyCreates(g.rels, Creates(g.nodes, ends, rows)))
  }

  function CreateKeys(cs: seq<Create>): set<RelKey>
  {
    set i | 0 <= i < |cs| :: cs[i].key
  }

  /**
    After a sequence of creates the store holds every relationship it held,
    with its properties untouched, and one for every key created, no more.
   */
  lemma {:induction false} ApplyCreatesResult(rels: map<RelKey, Props>, cs: seq<Create>)
    ensures ApplyCreates(rels, cs).Keys == rels.Keys + CreateKeys(cs)
    ensures forall k :: k in rels ==> ApplyCreates(rels, cs)[k] == rels[k]
  {
    if |cs| > 0 {
      var prefix := cs[..|cs| - 1];
      ApplyCreatesResult(rels, prefix);
      assert CreateKeys(cs) == CreateKeys(prefix) + {cs[|cs| - 1].key} by {
        forall k | k in CreateKeys(cs) ensures k in CreateKeys(prefix) + {cs[|cs| - 1].key} {
          var i :| 0 <= i < |cs| && cs[i].key == k;
          if i < |prefix| {
            assert prefix[i].key == k;
          }
        }
        forall k | k in CreateKeys(prefix) ensures k in CreateKeys(cs) {
          var i :| 0 <= i < |prefix| && prefix[i].key == k;
          assert cs[i].key == k;
        }
      }
    }
  }

  /** Properties are set on creation only: the first create of a new key decides them. */
  lemma {:induction false} FirstCreateWins(rels: map<RelKey, Props>, cs: seq<Create>, j: nat)
    requires j < |cs| && cs[j].key !in rels
    requires forall i :: 0 <= i < j ==> cs[i].key != cs[j].key
    ensures cs[j].key in ApplyCreates(rels, cs)
    ensures ApplyCreates(rels, cs)[cs[j].key] == DropNulls(cs[j].props)
  {
    var prefix := cs[..|cs| - 1];
    if j == |cs| - 1 {
      ApplyCreatesResult(rels, prefix);
      assert cs[j].key !in CreateKeys(prefix);
    } else {
      assert prefix[j] == cs[j];
      FirstCreateWins(rels, prefix, j);
    }
  }

  /** Creates whose keys all exist already change nothing. */
  lemma {:induction false} ApplyCreatesPresent(rels: map<RelKey, Props>, cs: seq<Create>)
    requires CreateKeys(cs) <= rels.Keys
    ensures ApplyCreates(rels, cs) == rels
  {
    if |cs| > 0 {
      var prefix := cs[..|cs| - 1];
      assert CreateKeys(prefix) <= CreateKeys(cs) by {
        forall k | k in CreateKeys(prefix) ensures k in CreateKeys(cs) {
          var i :| 0 <= i < |prefix| && prefix[i].key == k;
          assert cs[i].key == k;
        }
      }
      ApplyCreatesPresent(rels, prefix);
      assert cs[|cs| - 1].key in CreateKeys(cs);
    }
  }

  /** Applying the same creates twice gives the store applying them once gives. */
  lemma ApplyCreatesIdempotent(rels: map<RelKey, Props>, cs: seq<Create>)
    ensures ApplyCreates(ApplyCreates(rels, cs), cs) == ApplyCreates(rels, cs)
  {
    ApplyCreatesResult(rels, cs);
    ApplyCreatesPresent(ApplyCreates(rels, cs), cs);
  }

  lemma {:induction false} ApplyCreatesConcat(rels: map<RelKey, Props>, a: seq<Create>, b: seq<Create>)
    ensures ApplyCreates(rels, a + b) == ApplyCreates(ApplyCreates(rels, a), b)
    decreases |b|
  {
    if |b| == 0 {
      assert a + b == a;
    } else {
      var c := a + b;
      assert c[..|c| - 1] == a + b[..|b| - 1];
      ApplyCreatesConcat(rels, a, b[..|b| - 1]);
    }
  }

  /** Merging the same relationship batch twice gives the store merging it once gives. */
  lemma MergeRelsIdempotent(g: Graph, ends: RelEnds, rows: seq<RelRow>)
    ensures MergeRels(MergeRels(g, ends, rows), ends, rows) == MergeRels(g, ends, rows)
  {
    ApplyCreatesIdempotent(g.rels, Creates(g.nodes, ends, rows));
  }

  /**
    A relationship batch adds exactly one relationship per matching row's
    (type, a, b) that is not there yet, between existing nodes; existing
    relationships keep their properties and the nodes do not change.
   */
  lemma MergeRelsResult(g: Graph, ends: RelEnds, rows: seq<RelRow>)
    ensures var after := MergeRels(g, ends, rows);
      && after.nodes == g.nodes
      && (forall k :: k in g.rels ==> k in after.rels && after.rels[k] == g.rels[k])
      && (forall k :: k in after.rels && k !in g.rels ==>
            k.from in g.nodes && k.to in g.nodes &&
            exists r :: r in rows && EndsMatch(g.nodes, ends, r) && k == RelKeyOf(ends, r))
      && (forall r :: r in rows && EndsMatch(g.nodes, ends, r) ==> RelKeyOf(ends, r) in after.rels)
  {
    var cs := Creates(g.nodes, ends, rows);
    CreatesMembers(g.nodes, ends, rows);
    ApplyCreatesResult(g.rels, cs);
    forall k | k in CreateKeys(cs)
      ensures k.from in g.nodes && k.to in g.nodes
      ensures exists r :: r in rows && EndsMatch(g.nodes, ends, r) && k == RelKeyOf(ends, r)
    {
      var i :| 0 <= i < |cs| && cs[i].key == k;
      assert cs[i] in cs;
    }
    forall r | r in rows && EndsMatch(g.nodes, ends, r) ensures RelKeyOf(ends, r) in CreateKeys(cs) {
      var c := Create(RelKeyOf(ends, r), r.props);
      var i :| 0 <= i < |cs| && cs[i] == c;
    }
  }

  /**
    A row that would create: both endpoints match and the store holds no
    relationship of the batch's type between them yet.
   */
  predicate WouldCreate(g: Graph, ends: RelEnds, row: RelRow)
  {
    EndsMatch(g.nodes, ends, row) && RelKeyOf(ends, row) !in g.rels
  }

  /**
    `_merge_rels_batch` as written, for rows that carry no `props` entry
    (the rows of a direct mapping), on a store that rejects
    `ON CREATE SET r = null` as a type error: the batch fails, and is rolled
    back, exactly when some row would create a relationship. A batch that
    does not fail is one that would not have changed the store.
   */
  function MergeRelsWithoutProps(g: Graph, ends: RelEnds, rows: seq<RelRow>): (r: Option<Graph>)
    ensures r.None? <==> exists row :: row in rows && WouldCreate(g, ends, row)
    ensures r.Some? ==> r.value == MergeRels(g, ends, rows) && r.value == g
  {
    if exists row :: row in rows && WouldCreate(g, ends, row) then None
    else
      var cs := Creates(g.nodes, ends, rows);
      CreatesMembers(g.nodes, ends, rows);
      assert CreateKeys(cs) <= g.rels.Keys by {
        forall k | k in CreateKeys(cs) ensures k in g.rels {
          var i :| 0 <= i < |cs| && cs[i].key == k;
          assert cs[i] in cs;
        }
      }
      ApplyCreatesPresent(g.rels, cs);
      Some(g)
  }

  /**
    The discrepancy, on one order row whose customer exists: the batch as
    written fails and the swallowed error leaves no relationship, where the
    model with empty properties creates `HAS_CUSTOMERS` without properties.
   */
  lemma NullPropsBatchFails()
    ensures var order := NodeKey("Orders", "id", Int(1));
      var customer := NodeKey("Customers", "id", Int(7));
      var g := Graph(map[order := map["id" := Int(1)], customer := map["id" := Int(7)]], map[]);
      var ends := RelEnds("Orders", "id", "Customers", "id", "HAS_CUSTOMERS");
      var rows := [RelRow(Int(1), Int(7), map[])];
      && MergeRelsWithoutProps(g, ends, rows).None?
      && MergeRels(g, ends, rows).rels == map[RelKey("HAS_CUSTOMERS", order, customer) := map[]]
  {
    var order := NodeKey("Orders", "id", Int(1));
    var customer := NodeKey("Customers", "id", Int(7));
    var g := Graph(map[order := map["id" := Int(1)], customer := map["id" := Int(7)]], map[]);
    var ends := RelEnds("Orders", "id", "Customers", "id", "HAS_CUSTOMERS");
    var row := RelRow(Int(1), Int(7), map[]);
    assert WouldCreate(g, ends, row);
    assert [row][..0] == [];
    assert DropNulls(map[]) == map[];
  }

  /** Creates that all carry no properties give every new relationship no properties. */
  lemma {:induction false} ApplyCreatesNoProps(rels: map<RelKey, Props>, cs: seq<Create>)
    requires forall c :: c in cs ==> c.props == map[]
    ensures forall k :: k in ApplyCreates(rels, cs) && k !in rels ==> ApplyCreates(rels, cs)[k] == map[]
  {
    if |cs| > 0 {
      var prefix := cs[..|cs| - 1];
      assert forall c :: c in prefix ==> c in cs;
      ApplyCreatesNoProps(rels, prefix);
      assert cs[|cs| - 1] in cs;
      assert DropNulls(map[]) == map[];
    }
  }

  /**
    A batch of rows without properties creates a relationship for every row
    that would create one, and every relationship it creates has no
    properties.
   */
  lemma MergeRelsNoProps(g: Graph, ends: RelEnds, rows: seq<RelRow>)
    requires forall r :: r in rows ==> r.props == map[]
    ensures var after := MergeRels(g, ends, rows);
      && (forall r :: r in rows && WouldCreate(g, ends, r) ==> RelKeyOf(ends, r) in after.rels)
      && (forall k :: k in after.rels && k !in g.rels ==> after.rels[k] == map[])
  {
    var cs := Creates(g.nodes, ends, rows);
    MergeRelsResult(g, ends, rows);
    CreatesMembers(g.nodes, ends, rows);
    ApplyCreatesNoProps(g.rels, cs);
  }

  /**
    Endpoint ids are not converted: a decimal or date id never matches a
    node keyed by a converted value, so that row creates nothing.
   */
  lemma UnconvertedEndpointNeverMatches(nodes: map<NodeKey, Props>, ends: RelEnds, row: RelRow)
    requires forall k :: k in nodes ==> StoreNeutral(k.id)
    requires !StoreNeutral(row.fromId) || !StoreNeutral(row.toId)
    ensures !EndsMatch(nodes, ends, row)
    ensures Creates(nodes, ends, [row]) == []
  {
    assert [row][..0] == [];
  }

  // ---------------------------------------------------------------------------
  // The store invariant
  // ---------------------------------------------------------------------------

  predicate NoNulls(p: Props)
  {
    forall q :: q in p ==> !p[q].Null?
  }

  /** A node holds its non-null, converted key value under its key property and no `Null` property. */
  predicate NodeValid(k: NodeKey, p: Props)
  {
    !k.id.Null? && StoreNeutral(k.id) && k.keyProp in p && p[k.keyProp] == k.id && NoNulls(p)
  }

  predicate NodesValid(nodes: map<NodeKey, Props>)
  {
    forall k :: k in nodes ==> NodeValid(k, nodes[k])
  }

  /** Every node is valid and every relationship joins two nodes of the store. */
  predicate WellFormed(g: Graph)
  {
    NodesValid(g.nodes) && forall r :: r in g.rels ==> r.from in g.nodes && r.to in g.nodes
  }

  /** An upsert whose row carries its own non-null converted key value. */
  predicate UpsertKeyed(u: Upsert)
  {
    u.key.keyProp in u.props && u.props[u.key.keyProp] == u.key.id && !u.key.id.Null? && StoreNeutral(u.key.id)
  }

  lemma ApplyUpsertValid(nodes: map<NodeKey, Props>, u: Upsert)
    requires NodesValid(nodes) && UpsertKeyed(u)
    ensures NodesValid(ApplyUpsert(nodes, u))
    ensures nodes.Keys <= ApplyUpsert(nodes, u).Keys
  {
    var p := Overlay(Base(nodes, u.key), u.props);
    OverlayFrame(Base(nodes, u.key), u.props);
    assert NodeValid(u.key, p);
  }

  lemma {:induction false} ApplyUpsertsValid(nodes: map<NodeKey, Props>, us: seq<Upsert>)
    requires NodesValid(nodes)
    requires forall i :: 0 <= i < |us| ==> UpsertKeyed(us[i])
    ensures NodesValid(ApplyUpserts(nodes, us))
    ensures nodes.Keys <= ApplyUpserts(nodes, us).Keys
  {
    if |us| > 0 {
      var prefix := us[..|us| - 1];
      assert forall i :: 0 <= i < |prefix| ==> prefix[i] == us[i];
      ApplyUpsertsValid(nodes, prefix);
      ApplyUpsertValid(ApplyUpserts(nodes, prefix), us[|us| - 1]);
    }
  }

  /** A batch of converted rows keeps the store valid. */
  lemma MergeNodesWellFormed(g: Graph, nodeLabel: string, idProp: Option<string>, batch: seq<Props>)
    requires WellFormed(g) && forall p :: p in batch ==> NeutralProps(p)
    ensures WellFormed(MergeNodes(g, nodeLabel, idProp, batch))
  {
    var us := BatchUpserts(nodeLabel, idProp, batch);
    forall i | 0 <= i < |us| ensures UpsertKeyed(us[i]) {
      assert us[i].props in batch;
    }
    UpsertRowsIsUpserts(g.nodes, nodeLabel, idProp, batch);
    ApplyUpsertsValid(g.nodes, us);
  }

  /** A relationship batch keeps the store valid. */
  lemma MergeRelsWellFormed(g: Graph, ends: RelEnds, rows: seq<RelRow>)
    requires WellFormed(g)
    ensures WellFormed(MergeRels(g, ends, rows))
  {
    MergeRelsResult(g, ends, rows);
  }
}
