/**
 * The inventory card. Unlike the other cards it pins nothing across
 * updates: each non-empty `inventory` prop is compared with a map from row
 * key to the last row with that key in the previous prop; the rows that
 * are new or changed are highlighted, and every row of a node that has at
 * least one such row is moved to the top, keeping the prop's order within
 * both parts. The highlight is cleared five seconds after each non-empty
 * update.
 */
module Inventory {
  import opened Collections
  import opened Text
  import opened Pinning

  datatype Row = Row(nodeId: int, rack: string, subrack: string, slot: int, port: int, firmware: string)

  /** Everything in the row key after the node id. */
  function Location(r: Row): string
  {
    r.rack + "-" + r.subrack + "-" + IntToString(r.slot) + "-" + IntToString(r.port)
  }

  /** `${nodeId}-${rack}-${subrack}-${slot}-${port}`. */
  function RowKey(r: Row): string
  {
    IntToString(r.nodeId) + "-" + Location(r)
  }

  function RowNode(r: Row): int
  {
    r.nodeId
  }

  /** A row is new or changed when its key is not in the map or a compared field differs. */
  predicate RowChanged(prev: map<string, Row>, r: Row)
  {
    var k := RowKey(r);
    || k !in prev
    || prev[k].rack != r.rack
    || prev[k].subrack != r.subrack
    || prev[k].slot != r.slot
    || prev[k].port != r.port
    || prev[k].firmware != r.firmware
  }

  /** The row key determines the node, even though the rest of it may be ambiguous. */
  lemma RowKeyNode(a: Row, b: Row)
    requires RowKey(a) == RowKey(b)
    ensures a.nodeId == b.nodeId && Location(a) == Location(b)
  {
    IntKeyInjective(a.nodeId, Location(a), b.nodeId, Location(b));
  }

  /**
   * A rack or subrack containing a dash can make two different rows share
   * a key; the comparison of `rack` then flags a row whose firmware did
   * not change.
   */
  lemma KeyCollision()
    ensures var a := Row(1, "r-1", "s", 2, 3, "v1");
            var b := Row(1, "r", "1-s", 2, 3, "v1");
            RowKey(a) == RowKey(b) && a != b && RowChanged(map[RowKey(a) := a], b)
  {
    var a := Row(1, "r-1", "s", 2, 3, "v1");
    var b := Row(1, "r", "1-s", 2, 3, "v1");
    assert Location(a) == Location(b);
  }

  /** The rows of `rows` whose node is (`top`) or is not (`!top`) among `nodes`, in order. */
  function Group(rows: seq<Row>, nodes: set<int>, top: bool): seq<Row>
  {
    if rows == [] then []
    else
      var r := rows[|rows| - 1];
      Group(rows[..|rows| - 1], nodes, top) + (if (r.nodeId in nodes) == top then [r] else [])
  }

  lemma {:induction false} GroupMember(rows: seq<Row>, nodes: set<int>, top: bool, x: Row)
    ensures x in Group(rows, nodes, top) <==> x in rows && (x.nodeId in nodes) == top
  {
    if rows != [] {
      var init := rows[..|rows| - 1];
      GroupMember(init, nodes, top, x);
      assert rows == init + [rows[|rows| - 1]];
    }
  }

  /** The two groups together hold exactly the rows of the prop: nothing is lost or duplicated. */
  lemma {:induction false} GroupsPermute(rows: seq<Row>, nodes: set<int>)
    ensures multiset(Group(rows, nodes, true) + Group(rows, nodes, false)) == multiset(rows)
  {
    if rows != [] {
      var init := rows[..|rows| - 1];
      GroupsPermute(init, nodes);
      assert rows == init + [rows[|rows| - 1]];
    }
  }

  /**
   * Every row whose key is highlighted lands in the top group, and a row
   * lands in the top group exactly when some changed row shares its node.
   */
  lemma HighlightedOnTop(prev: map<string, Row>, rows: seq<Row>, r: Row)
    requires r in rows
    ensures r in Group(rows, Marked(RowChanged, prev, RowNode, rows), true) <==>
            exists i | 0 <= i < |rows| :: RowChanged(prev, rows[i]) && rows[i].nodeId == r.nodeId
    ensures RowKey(r) in Marked(RowChanged, prev, RowKey, rows) ==>
            r in Group(rows, Marked(RowChanged, prev, RowNode, rows), true)
  {
    var nodes := Marked(RowChanged, prev, RowNode, rows);
    GroupMember(rows, nodes, true, r);
    MarkedMember(RowChanged, prev, RowNode, rows, r.nodeId);
    MarkedMember(RowChanged, prev, RowKey, rows, RowKey(r));
    if RowKey(r) in Marked(RowChanged, prev, RowKey, rows) {
      var i :| 0 <= i < |rows| && RowChanged(prev, rows[i]) && RowKey(rows[i]) == RowKey(r);
      RowKeyNode(rows[i], r);
      assert RowNode(rows[i]) == r.nodeId;
    }
  }

  /** The change-detection pass: the changed row keys and the nodes they belong to. */
  method Detect(prev: map<string, Row>, rows: seq<Row>) returns (changedKeys: set<string>, nodeIdsChanged: set<int>)
    ensures changedKeys == Marked(RowChanged, prev, RowKey, rows)
    ensures nodeIdsChanged == Marked(RowChanged, prev, RowNode, rows)
  {
    changedKeys, nodeIdsChanged := {}, {};
    for i := 0 to |rows|
      invariant changedKeys == Marked(RowChanged, prev, RowKey, rows[..i])
      invariant nodeIdsChanged == Marked(RowChanged, prev, RowNode, rows[..i])
    {
      assert rows[..i + 1][..i] == rows[..i];
      var item := rows[i];
      if RowChanged(prev, item) {
        changedKeys := changedKeys + {RowKey(item)};
        nodeIdsChanged := nodeIdsChanged + {item.nodeId};
      }
    }
    assert rows[..|rows|] == rows;
  }

  /** The partition pass: rows of changed nodes first, the others after, each in prop order. */
  method Partition(rows: seq<Row>, nodes: set<int>) returns (topRows: seq<Row>, restRows: seq<Row>)
    ensures topRows == Group(rows, nodes, true)
    ensures restRows == Group(rows, nodes, false)
  {
    topRows, restRows := [], [];
    for i := 0 to |rows|
      invariant topRows == Group(rows[..i], nodes, true)
      invariant restRows == Group(rows[..i], nodes, false)
    {
      assert rows[..i + 1][..i] == rows[..i];
      var item := rows[i];
      if item.nodeId in nodes {
        topRows := topRows + [item];
      } else {
        restRows := restRows + [item];
      }
    }
    assert rows[..|rows|] == rows;
  }

  /** The highlight delay, in milliseconds. */
  const HighlightMs := 5000

  class InventoryCard {
    var prev: map<string, Row>
    var highlighted: set<string>
    var items: seq<Row>
    /** Whether a highlight-clearing timer is pending. */
    var timerArmed: bool

    constructor ()
      ensures prev == map[] && highlighted == {} && items == [] && !timerArmed
    {
      prev, highlighted, items, timerArmed := map[], {}, [], false;
    }

    /**
     * The effect run for a new `inventory` prop (`None` when the prop is
     * missing): the previous run's timer is cancelled, a missing or empty
     * prop changes nothing else, and otherwise the change-detection pass
     * and the partition pass run and a new timer is armed.
     */
    method Update(inventory: Option<seq<Row>>)
      modifies this
      ensures !timerArmed <==> inventory.None? || inventory.value == []
      ensures !timerArmed ==>
                prev == old(prev) && highlighted == old(highlighted) && items == old(items)
      ensures timerArmed ==>
                var rows := inventory.value;
                var nodes := Marked(RowChanged, old(prev), RowNode, rows);
                && highlighted == Marked(RowChanged, old(prev), RowKey, rows)
                && items == Group(rows, nodes, true) + Group(rows, nodes, false)
                && prev == IndexBy(rows, RowKey)
    {
      timerArmed := false;
      if inventory.None? || inventory.value == [] {
        return;
      }
      var rows := inventory.value;
      var changedKeys, nodeIdsChanged := Detect(prev, rows);
      var topRows, restRows := Partition(rows, nodeIdsChanged);
      items := topRows + restRows;
      highlighted := changedKeys;
      prev := IndexBy(rows, RowKey);
      timerArmed := true;
    }

    /** The timer firing `HighlightMs` after the last non-empty update. */
    method ExpireHighlight()
      modifies this
      ensures old(timerArmed) ==> highlighted == {} && !timerArmed
      ensures !old(timerArmed) ==> highlighted == old(highlighted) && !timerArmed
      ensures prev == old(prev) && items == old(items)
    {
      if timerArmed {
        highlighted := {};
        timerArmed := false;
      }
    }
  }
}
