/**
  Building a graph property map from a relational row: the dictionary
  comprehension `{prop: convert(row.get(col)) for col, prop in mapping.items()}`.
 */
module Rows {
  import opened Values
  import opened Collections
  import opened Mapping

  /** A row of a dictionary cursor: column name to value. */
  type Row = map<string, Value>

  /** A property map; `Null` entries are what `None` values become. */
  type Props = map<string, Value>

  /** `row.get(col)`: a missing column reads as None. */
  function Get(row: Row, col: string): Value
  {
    if col in row then row[col] else Null
  }

  /** Every value of the map is one the store accepts as it is. */
  predicate NeutralProps(p: Props)
  {
    forall k :: k in p ==> StoreNeutral(p[k])
  }

  /** No later pair of the mapping writes the property that pair `i` writes. */
  predicate LastWriter(pm: PropertyMapping, i: int)
    requires 0 <= i < |pm|
  {
    forall j :: i < j < |pm| ==> pm[j].1 != pm[i].1
  }

  /**
    The property map of a row. Its keys are exactly the mapping's property
    names; each holds the converted value of the last column mapped to it
    (a later pair of the mapping overrides an earlier one, as in a dict).
   */
  function BuildProps(pm: PropertyMapping, row: Row): (props: Props)
    ensures props.Keys == Targets(pm)
    ensures NeutralProps(props)
    decreases |pm|
  {
    if |pm| == 0 then map[]
    else
      var prefix := pm[..|pm| - 1];
      var last := pm[|pm| - 1];
      assert Targets(pm) == Targets(prefix) + {last.1} by {
        assert forall i :: 0 <= i < |prefix| ==> prefix[i] == pm[i];
      }
      BuildProps(prefix, row)[last.1 := Convert(Get(row, last.0))]
  }

  /** The value of a property is the converted value of the last column mapped to it. */
  lemma {:induction false} BuildPropsLastWins(pm: PropertyMapping, row: Row, i: int)
    requires 0 <= i < |pm| && LastWriter(pm, i)
    ensures BuildProps(pm, row)[pm[i].1] == Convert(Get(row, pm[i].0))
    decreases |pm|
  {
    if i < |pm| - 1 {
      var prefix := pm[..|pm| - 1];
      assert prefix[i] == pm[i];
      assert pm[|pm| - 1].1 != pm[i].1;
      assert LastWriter(prefix, i) by {
        forall j | i < j < |prefix| ensures prefix[j].1 != prefix[i].1 {
          assert prefix[j] == pm[j];
        }
      }
      BuildPropsLastWins(prefix, row, i);
    }
  }

  /**
    With an identity mapping over a table's columns, the property map holds
    exactly those columns, each with the converted value of that column, or
    `Null` when the row lacks it.
   */
  lemma BuildPropsIdentity(cols: seq<string>, row: Row)
    ensures BuildProps(IdentityMap(cols), row).Keys == Elements(cols)
    ensures forall c :: c in cols ==> BuildProps(IdentityMap(cols), row)[c] == Convert(Get(row, c))
  {
    var pm := IdentityMap(cols);
    IdentityMapFacts(cols);
    var props := BuildProps(pm, row);
    forall c | c in cols ensures props[c] == Convert(Get(row, c)) {
      assert c in Sources(pm);
      var i :| 0 <= i < |pm| && pm[i].0 == c;
      assert pm[i].1 == c;
      BuildPropsLastWins(pm, row, i);
    }
  }
}
