/**
 * The nodes card: every poll fetches the node list, flags the nodes that
 * are new or whose record differs in any field from the first previous
 * node with the same id, pins the newly changed ones above the nodes
 * already pinned, and highlights this poll's changed ids.
 */
module Nodes {
  import opened Collections
  import opened Fetch
  import opened Pinning

  /** A node record as the nodes endpoint reports it; `id` may be missing. */
  datatype Node = Node(id: Option<string>, name: string, ip: string, status: Option<string>,
                       kind: string, region: string, uptime: string)

  function NodeKey(n: Node): Option<string>
  {
    n.id
  }

  /**
   * A node is new or changed when no previous node has its id, or the
   * first previous node with its id is not identical to it.
   */
  predicate NodeChanged(prev: seq<Node>, n: Node)
  {
    DiffersFromFirst(prev, NodeKey, n.id, n)
  }

  /** A node is unchanged exactly when it is identical to the first previous node with its id. */
  lemma NodeUnchangedIff(prev: seq<Node>, n: Node)
    ensures !NodeChanged(prev, n) <==>
            exists i | 0 <= i < |prev| :: prev[i] == n && forall j | 0 <= j < i :: prev[j].id != n.id
  {
    DiffersFromFirstIff(prev, NodeKey, n.id, n);
  }

  /**
   * After a poll that returned no nodes the previous list is empty, so the
   * next poll highlights the id of every node it returns.
   */
  lemma AfterEmptyPollAllChanged(snap: seq<Node>)
    ensures Marked(NodeChanged, [], NodeKey, snap) == set i | 0 <= i < |snap| :: snap[i].id
  {
    forall h
      ensures h in Marked(NodeChanged, [], NodeKey, snap) <==>
              exists i | 0 <= i < |snap| :: snap[i].id == h
    {
      MarkedMember(NodeChanged, [], NodeKey, snap, h);
    }
  }

  /** After a cycle, every highlighted id belongs to a pinned node. */
  lemma HighlightsPinned(prev: seq<Node>, fetched: seq<Node>, pinned: seq<Node>)
    ensures forall h | h in Marked(NodeChanged, prev, NodeKey, fetched) ::
              HasKey(Batch(NodeChanged, prev, Identity, NodeKey, fetched, pinned) + pinned, NodeKey, h)
  {
    forall h | h in Marked(NodeChanged, prev, NodeKey, fetched)
      ensures HasKey(Batch(NodeChanged, prev, Identity, NodeKey, fetched, pinned) + pinned, NodeKey, h)
    {
      MarkedMember(NodeChanged, prev, NodeKey, fetched, h);
      var i :| 0 <= i < |fetched| && NodeChanged(prev, fetched[i]) && NodeKey(fetched[i]) == h;
      ChangedArePinned(NodeChanged, prev, Identity, NodeKey, fetched, pinned, fetched[i]);
    }
  }

  /** The polling period, in milliseconds. */
  const PollMs := 2000

  class NodesCard {
    var prev: seq<Node>
    var pinned: seq<Node>
    var highlighted: set<Option<string>>
    var display: seq<Node>
    var loading: bool

    /** Every highlighted id belongs to a pinned node. */
    ghost predicate Valid()
      reads this
    {
      forall h | h in highlighted :: HasKey(pinned, NodeKey, h)
    }

    /** The state one poll that fetched `fetched` leaves behind, from `prev0` and `pinned0`. */
    ghost predicate Cycled(prev0: seq<Node>, pinned0: seq<Node>, fetched: seq<Node>)
      reads this
    {
      && highlighted == Marked(NodeChanged, prev0, NodeKey, fetched)
      && pinned == Batch(NodeChanged, prev0, Identity, NodeKey, fetched, pinned0) + pinned0
      && display == Arrange(Identity, NodeKey, fetched, pinned)
      && prev == fetched
      && !loading
    }

    constructor ()
      ensures Valid() && loading
      ensures prev == [] && pinned == [] && highlighted == {} && display == []
    {
      prev, pinned, highlighted, display, loading := [], [], {}, [], true;
    }

    /** One poll's reconciliation of the fetched node list. */
    method Reconcile(fetched: seq<Node>)
      requires Valid()
      modifies this
      ensures Valid()
      ensures Cycled(old(prev), old(pinned), fetched)
    {
      var marks, batch := Scan(NodeChanged, prev, Identity, NodeKey, NodeKey, fetched, pinned);
      var oldTop := pinned;
      NothingUnpinned(NodeChanged, prev, Identity, NodeKey, fetched, pinned);
      pinned := Promote(batch, NodeKey, pinned);
      var removed := Without(oldTop, NodeKey, pinned);
      assert removed == [];
      var others := Without(fetched, NodeKey, pinned);
      StampedIdentity(fetched);
      display := pinned + others;
      HighlightsPinned(prev, fetched, oldTop);
      highlighted := marks;
      prev := fetched;
      loading := false;
    }

    /**
     * One poll: the reply is normalised by `getData`; a value that is not
     * a list makes the `forEach` throw before any state is touched.
     */
    method Poll(resp: Response<Node>)
      requires Valid()
      modifies this
      ensures Valid()
      ensures GetData(resp).List? ==> Cycled(old(prev), old(pinned), GetData(resp).items)
      ensures GetData(resp).NotAList? ==> unchanged(this)
    {
      var data := GetData(resp);
      if data.List? {
        Reconcile(data.items);
      }
    }
  }
}
