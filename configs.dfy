/**
 * The configuration card: the same diff-and-promote cycle, driven by the
 * `configs` prop rather than by a poll. A configuration is identified by
 * its node id and backup time; the change test looks it up by the text
 * key `${nodeId}-${backupTime}` and compares only `status` and
 * `compliance`, while the pinned lookups compare the two fields directly.
 * The highlight is cleared by a timer three seconds after each non-empty
 * update.
 */
module Configs {
  import opened Collections
  import opened Text
  import opened Pinning

  datatype Config = Config(nodeId: int, backupTime: string, status: string, compliance: string)

  /** `${c.nodeId}-${c.backupTime}`: the highlight key and the key of the change test. */
  function ConfigKey(c: Config): string
  {
    IntToString(c.nodeId) + "-" + c.backupTime
  }

  /** The pair the pinned lookups compare field by field. */
  function ConfigId(c: Config): (int, string)
  {
    (c.nodeId, c.backupTime)
  }

  /**
   * The text key and the field pair identify the same configurations, so
   * the two kinds of lookup never disagree.
   */
  lemma ConfigKeyIff(a: Config, b: Config)
    ensures ConfigKey(a) == ConfigKey(b) <==> ConfigId(a) == ConfigId(b)
  {
    if ConfigKey(a) == ConfigKey(b) {
      IntKeyInjective(a.nodeId, a.backupTime, b.nodeId, b.backupTime);
    }
  }

  /**
   * A configuration is new or changed when no previous configuration has
   * its key, or the first one that does differs in status or compliance.
   */
  predicate ConfigChanged(prev: seq<Config>, c: Config)
  {
    match FindFirst(prev, ConfigKey, ConfigKey(c))
    case None => true
    case Some(o) => o.status != c.status || o.compliance != c.compliance
  }

  /**
   * A change in the backup time alone makes a new key, so it is a new
   * configuration; a configuration identical in status and compliance to
   * the first previous one with its key is never flagged.
   */
  lemma ConfigChangedIff(prev: seq<Config>, c: Config)
    ensures !ConfigChanged(prev, c) <==>
            exists i | 0 <= i < |prev| ::
              && ConfigId(prev[i]) == ConfigId(c)
              && prev[i].status == c.status && prev[i].compliance == c.compliance
              && forall j | 0 <= j < i :: ConfigId(prev[j]) != ConfigId(c)
  {
    ChangedAgainstFirst(prev, c);
    FirstMatchIff(prev, c);
  }

  /** The first configuration with a field pair is the one no earlier configuration shares it with. */
  lemma FirstMatchIff(prev: seq<Config>, c: Config)
    ensures var f := FirstIndex(prev, ConfigId, ConfigId(c));
            (f < |prev| && prev[f].status == c.status && prev[f].compliance == c.compliance) <==>
            exists i | 0 <= i < |prev| ::
              && ConfigId(prev[i]) == ConfigId(c)
              && prev[i].status == c.status && prev[i].compliance == c.compliance
              && forall j | 0 <= j < i :: ConfigId(prev[j]) != ConfigId(c)
  {
    var f := FirstIndex(prev, ConfigId, ConfigId(c));
    if exists i | 0 <= i < |prev| ::
         && ConfigId(prev[i]) == ConfigId(c)
         && prev[i].status == c.status && prev[i].compliance == c.compliance
         && forall j | 0 <= j < i :: ConfigId(prev[j]) != ConfigId(c)
    {
      var i :| 0 <= i < |prev|
               && ConfigId(prev[i]) == ConfigId(c)
               && prev[i].status == c.status && prev[i].compliance == c.compliance
               && forall j | 0 <= j < i :: ConfigId(prev[j]) != ConfigId(c);
      assert f <= i;
    }
  }

  /** The change test reads the first previous configuration with the same field pair. */
  lemma ChangedAgainstFirst(prev: seq<Config>, c: Config)
    ensures var f := FirstIndex(prev, ConfigId, ConfigId(c));
            !ConfigChanged(prev, c) <==>
            f < |prev| && prev[f].status == c.status && prev[f].compliance == c.compliance
  {
    SameFirstConfig(prev, c);
  }

  /** Looking a configuration up by text key or by field pair finds the same first record. */
  lemma SameFirstConfig(prev: seq<Config>, c: Config)
    ensures FirstIndex(prev, ConfigKey, ConfigKey(c)) == FirstIndex(prev, ConfigId, ConfigId(c))
  {
    forall j | 0 <= j < |prev|
      ensures ConfigKey(prev[j]) == ConfigKey(c) <==> ConfigId(prev[j]) == ConfigId(c)
    {
      ConfigKeyIff(prev[j], c);
    }
    FirstIndexSameMatches(prev, ConfigKey, ConfigKey(c), ConfigId, ConfigId(c));
  }

  /** A configuration pinned by its field pair is also found by its text key. */
  lemma PinnedById(pinned: seq<Config>, c: Config)
    requires HasKey(pinned, ConfigId, ConfigId(c))
    ensures HasKey(pinned, ConfigKey, ConfigKey(c))
  {
    var j :| 0 <= j < |pinned| && ConfigId(pinned[j]) == ConfigId(c);
    assert ConfigKey(pinned[j]) == ConfigKey(c);
  }

  /** After a cycle, every highlighted key belongs to a pinned configuration. */
  lemma HighlightsPinned(prev: seq<Config>, configs: seq<Config>, pinned: seq<Config>)
    ensures forall h | h in Marked(ConfigChanged, prev, ConfigKey, configs) ::
              HasKey(Batch(ConfigChanged, prev, Identity, ConfigId, configs, pinned) + pinned, ConfigKey, h)
  {
    var top := Batch(ConfigChanged, prev, Identity, ConfigId, configs, pinned) + pinned;
    forall h | h in Marked(ConfigChanged, prev, ConfigKey, configs)
      ensures HasKey(top, ConfigKey, h)
    {
      MarkedMember(ConfigChanged, prev, ConfigKey, configs, h);
      var i :| 0 <= i < |configs| && ConfigChanged(prev, configs[i]) && ConfigKey(configs[i]) == h;
      ChangedArePinned(ConfigChanged, prev, Identity, ConfigId, configs, pinned, configs[i]);
      PinnedById(top, configs[i]);
    }
  }

  /** The highlight delay, in milliseconds. */
  const HighlightMs := 3000

  class ConfigCard {
    var prev: seq<Config>
    var pinned: seq<Config>
    var highlighted: set<string>
    var ordered: seq<Config>
    /** Whether a highlight-clearing timer is pending. */
    var timerArmed: bool

    /** Every highlighted key belongs to a pinned configuration. */
    ghost predicate Valid()
      reads this
    {
      forall h | h in highlighted :: HasKey(pinned, ConfigKey, h)
    }

    constructor ()
      ensures Valid()
      ensures prev == [] && pinned == [] && highlighted == {} && ordered == [] && !timerArmed
    {
      prev, pinned, highlighted, ordered, timerArmed := [], [], {}, [], false;
    }

    /**
     * The effect run for a new `configs` prop. Its cleanup first cancels
     * the pending timer of the previous run; an empty list then changes
     * nothing else, so a highlight still shown stays until the next
     * non-empty update. Otherwise one cycle runs and a new timer is armed.
     */
    method Update(configs: seq<Config>)
      requires Valid()
      modifies this
      ensures Valid()
      ensures !timerArmed <==> configs == []
      ensures configs == [] ==>
                prev == old(prev) && pinned == old(pinned) &&
                highlighted == old(highlighted) && ordered == old(ordered)
      ensures configs != [] ==>
                && highlighted == Marked(ConfigChanged, old(prev), ConfigKey, configs)
                && pinned == Batch(ConfigChanged, old(prev), Identity, ConfigId, configs, old(pinned)) + old(pinned)
                && ordered == Arrange(Identity, ConfigId, configs, pinned)
                && prev == configs
    {
      timerArmed := false;
      if configs == [] {
        return;
      }
      var marks, batch := Scan(ConfigChanged, prev, Identity, ConfigId, ConfigKey, configs, pinned);
      var oldTop := pinned;
      NothingUnpinned(ConfigChanged, prev, Identity, ConfigId, configs, pinned);
      pinned := Promote(batch, ConfigId, pinned);
      var others := Without(configs, ConfigId, pinned);
      StampedIdentity(configs);
      ordered := pinned + others;
      HighlightsPinned(prev, configs, oldTop);
      highlighted := marks;
      prev := configs;
      timerArmed := true;
    }

    /** The timer firing `HighlightMs` after the last non-empty update. */
    method ExpireHighlight()
      requires Valid()
      modifies this
      ensures Valid()
      ensures old(timerArmed) ==> highlighted == {} && !timerArmed
      ensures !old(timerArmed) ==> highlighted == old(highlighted) && !timerArmed
      ensures prev == old(prev) && pinned == old(pinned) && ordered == old(ordered)
    {
      if timerArmed {
        highlighted := {};
        timerArmed := false;
      }
    }
  }

  // ---------------------------------------------------------------------
  // Compliance and status chips

  /** The number of records of `s` whose `field` is `k`. */
  function Occurrences<T>(s: seq<T>, field: T -> string, k: string): nat
  {
    CountWhere(s, x => field(x) == k)
  }

  /** `s.reduce((acc, c) => { acc[field(c)] = (acc[field(c)] || 0) + 1; return acc }, {})`. */
  function CountBy<T>(s: seq<T>, field: T -> string): map<string, nat>
  {
    if s == [] then map[]
    else
      var m := CountBy(s[..|s| - 1], field);
      var k := field(s[|s| - 1]);
      m[k := (if k in m then m[k] else 0) + 1]
  }

  /**
   * The chips name exactly the values that occur, and each chip counts
   * exactly the records carrying its value.
   */
  lemma {:induction false} CountByExact<T>(s: seq<T>, field: T -> string)
    ensures CountBy(s, field).Keys == set i | 0 <= i < |s| :: field(s[i])
    ensures forall k | k in CountBy(s, field) :: CountBy(s, field)[k] == Occurrences(s, field, k) > 0
  {
    if s != [] {
      var init := s[..|s| - 1];
      CountByExact(init, field);
      assert forall i | 0 <= i < |init| :: init[i] == s[i];
      var keys := set i | 0 <= i < |s| :: field(s[i]);
      var initKeys := set i | 0 <= i < |init| :: field(init[i]);
      assert keys == initKeys + {field(s[|s| - 1])} by {
        forall k | k in keys ensures k in initKeys + {field(s[|s| - 1])} {
          var i :| 0 <= i < |s| && field(s[i]) == k;
          if i < |init| {
            assert field(init[i]) == k;
          }
        }
      }
      forall k | k !in CountBy(init, field)
        ensures Occurrences(init, field, k) == 0
      {
        CountWhereZero(init, x => field(x) == k);
      }
    }
  }

  /** The sum of the values of a map. */
  ghost function MapSum(m: map<string, nat>): nat
    decreases |m.Keys|
  {
    if m == map[] then 0
    else
      var k :| k in m;
      m[k] + MapSum(m - {k})
  }

  /** The sum does not depend on the key taken out first. */
  lemma {:induction false} MapSumRemove(m: map<string, nat>, k: string)
    requires k in m
    ensures MapSum(m) == m[k] + MapSum(m - {k})
    decreases |m.Keys|
  {
    var j :| j in m && MapSum(m) == m[j] + MapSum(m - {j});
    if j != k {
      assert |(m - {j}).Keys| < |m.Keys| by {
        assert (m - {j}).Keys < m.Keys;
      }
      assert |(m - {k}).Keys| < |m.Keys| by {
        assert (m - {k}).Keys < m.Keys;
      }
      MapSumRemove(m - {j}, k);
      MapSumRemove(m - {k}, j);
      assert m - {j} - {k} == m - {k} - {j};
    }
  }

  /** The chips of a fold sum to the number of records folded. */
  lemma {:induction false} CountBySum<T>(s: seq<T>, field: T -> string)
    ensures MapSum(CountBy(s, field)) == |s|
  {
    if s != [] {
      var init := s[..|s| - 1];
      var m := CountBy(init, field);
      var k := field(s[|s| - 1]);
      var m' := m[k := (if k in m then m[k] else 0) + 1];
      CountBySum(init, field);
      MapSumRemove(m', k);
      assert m' - {k} == m - {k};
      if k in m {
        MapSumRemove(m, k);
      } else {
        assert m - {k} == m;
      }
    }
  }

  function Compliance(c: Config): string
  {
    c.compliance
  }

  function Status(c: Config): string
  {
    c.status
  }

  /** `countCompliance`, over the ordered list the card displays. */
  function ComplianceCounts(ordered: seq<Config>): (m: map<string, nat>)
    ensures forall k | k in m :: m[k] == Occurrences(ordered, Compliance, k) > 0
    ensures forall i | 0 <= i < |ordered| :: ordered[i].compliance in m
    ensures MapSum(m) == |ordered|
  {
    CountByExact(ordered, Compliance);
    CountBySum(ordered, Compliance);
    var m := CountBy(ordered, Compliance);
    assert forall i | 0 <= i < |ordered| :: Compliance(ordered[i]) in m;
    m
  }

  /** `countStatus`, over the ordered list the card displays. */
  function StatusCounts(ordered: seq<Config>): (m: map<string, nat>)
    ensures forall k | k in m :: m[k] == Occurrences(ordered, Status, k) > 0
    ensures forall i | 0 <= i < |ordered| :: ordered[i].status in m
    ensures MapSum(m) == |ordered|
  {
    CountByExact(ordered, Status);
    CountBySum(ordered, Status);
    var m := CountBy(ordered, Status);
    assert forall i | 0 <= i < |ordered| :: Status(ordered[i]) in m;
    m
  }
}
