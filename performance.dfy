/**
 * The performance card: the diff-and-promote cycle over one sample per
 * node. The previous state is a map from node id to the last sample of
 * that node in the previous prop; a sample is new or changed when its node
 * is not in the map or one of its three metrics differs. The timestamp is
 * not compared. The highlight is cleared five seconds after each
 * non-empty update.
 */
module Performance {
  import opened Collections
  import opened Pinning

  /**
   * A sample. The metrics are the finite numbers a JSON body can carry,
   * compared with `!==`, which on them is exact equality.
   */
  datatype Sample = Sample(nodeId: int, timestamp: string, latency: real, errorRate: real,
                           bandwidthUtilization: real)

  function SampleNode(p: Sample): int
  {
    p.nodeId
  }

  predicate SampleChanged(prev: map<int, Sample>, p: Sample)
  {
    || p.nodeId !in prev
    || prev[p.nodeId].latency != p.latency
    || prev[p.nodeId].errorRate != p.errorRate
    || prev[p.nodeId].bandwidthUtilization != p.bandwidthUtilization
  }

  /** The three metrics agree; the timestamp is not compared. */
  predicate SameMetrics(a: Sample, b: Sample)
  {
    a.latency == b.latency && a.errorRate == b.errorRate && a.bandwidthUtilization == b.bandwidthUtilization
  }

  /**
   * Against the map built from the previous prop, a sample is unchanged
   * exactly when the LAST previous sample of its node has the same
   * metrics: earlier samples of the node are not looked at.
   */
  lemma UnchangedIffLastSample(previous: seq<Sample>, p: Sample)
    ensures !SampleChanged(IndexBy(previous, SampleNode), p) <==>
            exists i | 0 <= i < |previous| ::
              previous[i].nodeId == p.nodeId && SameMetrics(previous[i], p) &&
              forall j | i < j < |previous| :: previous[j].nodeId != p.nodeId
  {
    var m := IndexBy(previous, SampleNode);
    IndexByLastWins(previous, SampleNode);
    if p.nodeId in m {
      var i :| 0 <= i < |previous| && previous[i] == m[p.nodeId] && SampleNode(previous[i]) == p.nodeId &&
               forall j | i < j < |previous| :: SampleNode(previous[j]) != p.nodeId;
      forall i' | 0 <= i' < |previous| && previous[i'].nodeId == p.nodeId &&
                  forall j | i' < j < |previous| :: previous[j].nodeId != p.nodeId
        ensures i' == i
      {
        assert SampleNode(previous[i']) == p.nodeId && previous[i].nodeId == p.nodeId;
      }
    } else {
      forall i | 0 <= i < |previous|
        ensures previous[i].nodeId != p.nodeId
      {
        assert SampleNode(previous[i]) in m.Keys;
      }
    }
  }

  /** After a cycle, every highlighted node has a pinned sample. */
  lemma HighlightsPinned(prev: map<int, Sample>, performance: seq<Sample>, pinned: seq<Sample>)
    ensures forall h | h in Marked(SampleChanged, prev, SampleNode, performance) ::
              HasKey(Batch(SampleChanged, prev, Identity, SampleNode, performance, pinned) + pinned, SampleNode, h)
  {
    forall h | h in Marked(SampleChanged, prev, SampleNode, performance)
      ensures HasKey(Batch(SampleChanged, prev, Identity, SampleNode, performance, pinned) + pinned, SampleNode, h)
    {
      MarkedMember(SampleChanged, prev, SampleNode, performance, h);
      var i :| 0 <= i < |performance| && SampleChanged(prev, performance[i]) && SampleNode(performance[i]) == h;
      ChangedArePinned(SampleChanged, prev, Identity, SampleNode, performance, pinned, performance[i]);
    }
  }

  /** The highlight delay, in milliseconds. */
  const HighlightMs := 5000

  class PerformanceCard {
    var prev: map<int, Sample>
    var pinned: seq<Sample>
    var highlighted: set<int>
    var data: seq<Sample>
    /** Whether a highlight-clearing timer is pending. */
    var timerArmed: bool

    /** Every highlighted node has a pinned sample. */
    ghost predicate Valid()
      reads this
    {
      forall h | h in highlighted :: HasKey(pinned, SampleNode, h)
    }

    constructor ()
      ensures Valid()
      ensures prev == map[] && pinned == [] && highlighted == {} && data == [] && !timerArmed
    {
      prev, pinned, highlighted, data, timerArmed := map[], [], {}, [], false;
    }

    /**
     * The effect run for a new `performance` prop: the previous run's
     * timer is cancelled, an empty list changes nothing else, and a
     * non-empty one runs one cycle and arms a new timer.
     */
    method Update(performance: seq<Sample>)
      requires Valid()
      modifies this
      ensures Valid()
      ensures !timerArmed <==> performance == []
      ensures performance == [] ==>
                prev == old(prev) && pinned == old(pinned) &&
                highlighted == old(highlighted) && data == old(data)
      ensures performance != [] ==>
                && highlighted == Marked(SampleChanged, old(prev), SampleNode, performance)
                && pinned == Batch(SampleChanged, old(prev), Identity, SampleNode, performance, old(pinned)) + old(pinned)
                && data == Arrange(Identity, SampleNode, performance, pinned)
                && prev == IndexBy(performance, SampleNode)
    {
      timerArmed := false;
      if performance == [] {
        return;
      }
      var marks, batch := Scan(SampleChanged, prev, Identity, SampleNode, SampleNode, performance, pinned);
      var oldTop := pinned;
      NothingUnpinned(SampleChanged, prev, Identity, SampleNode, performance, pinned);
      pinned := Promote(batch, SampleNode, pinned);
      var remaining := Without(performance, SampleNode, pinned);
      StampedIdentity(performance);
      data := pinned + remaining;
      HighlightsPinned(prev, performance, oldTop);
      highlighted := marks;
      prev := IndexBy(performance, SampleNode);
      timerArmed := true;
    }

    /** The timer firing `HighlightMs` after the last non-empty update. */
    method ExpireHighlight()
      requires Valid()
      modifies this
      ensures Valid()
      ensures old(timerArmed) ==> highlighted == {} && !timerArmed
      ensures !old(timerArmed) ==> highlighted == old(highlighted) && !timerArmed
      ensures prev == old(prev) && pinned == old(pinned) && data == old(data)
    {
      if timerArmed {
        highlighted := {};
        timerArmed := false;
      }
    }
  }
}
