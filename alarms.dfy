/**
 * The alarms card: the nodes card's reconciliation with a derived alarm
 * id (the `id` field, else `${nodeId}-${timestamp}`), which pinned and
 * displayed alarms carry; and the severity chips, a fold over the
 * displayed alarms.
 */
module Alarms {
  import opened Collections
  import opened Text
  import opened Fetch
  import opened Pinning

  /**
   * An alarm record. `nodeId` and `timestamp` are kept as the text a
   * template string renders them as.
   */
  datatype Alarm = Alarm(id: Option<string>, nodeId: string, severity: Option<string>,
                         kind: string, description: string, timestamp: string)

  /** `alarm.id ?? `${alarm.nodeId}-${alarm.timestamp}``. */
  function AlarmId(a: Alarm): string
  {
    if a.id.Some? then a.id.value else a.nodeId + "-" + a.timestamp
  }

  /** The raw `id` field, as the predecessor and pinned lookups compare it. */
  function RawId(a: Alarm): Option<string>
  {
    a.id
  }

  /** `{ ...alarm, id }`: the alarm as it is pinned and displayed. */
  function WithId(a: Alarm): (s: Alarm)
    ensures s.id == Some(AlarmId(a)) && AlarmId(s) == AlarmId(a)
    ensures a.id.Some? ==> s == a
  {
    a.(id := Some(AlarmId(a)))
  }

  /**
   * An alarm is new or changed unless the first previous alarm whose raw
   * `id` equals its derived id is identical to it.
   */
  predicate AlarmChanged(prev: seq<Alarm>, a: Alarm)
  {
    DiffersFromFirst(prev, RawId, Some(AlarmId(a)), a)
  }

  /**
   * An alarm without an `id` field is flagged on every poll: a previous
   * alarm found by its derived id carries an `id`, so it never equals it.
   */
  lemma IdlessAlarmAlwaysChanged(prev: seq<Alarm>, a: Alarm)
    requires a.id.None?
    ensures AlarmChanged(prev, a)
  {
    DiffersFromFirstIff(prev, RawId, Some(AlarmId(a)), a);
  }

  /** An alarm with an `id` is unchanged exactly when the first previous alarm with that `id` equals it. */
  lemma AlarmUnchangedIff(prev: seq<Alarm>, a: Alarm)
    requires a.id.Some?
    ensures !AlarmChanged(prev, a) <==>
            exists i | 0 <= i < |prev| :: prev[i] == a && forall j | 0 <= j < i :: prev[j].id != a.id
  {
    DiffersFromFirstIff(prev, RawId, Some(AlarmId(a)), a);
  }

  /** After a cycle, every highlighted id is the `id` of a pinned alarm. */
  lemma HighlightsPinned(prev: seq<Alarm>, fetched: seq<Alarm>, pinned: seq<Alarm>)
    ensures forall h | h in Marked(AlarmChanged, prev, AlarmId, fetched) ::
              HasKey(Batch(AlarmChanged, prev, WithId, RawId, fetched, pinned) + pinned, RawId, Some(h))
  {
    forall h | h in Marked(AlarmChanged, prev, AlarmId, fetched)
      ensures HasKey(Batch(AlarmChanged, prev, WithId, RawId, fetched, pinned) + pinned, RawId, Some(h))
    {
      MarkedMember(AlarmChanged, prev, AlarmId, fetched, h);
      var i :| 0 <= i < |fetched| && AlarmChanged(prev, fetched[i]) && AlarmId(fetched[i]) == h;
      ChangedArePinned(AlarmChanged, prev, WithId, RawId, fetched, pinned, fetched[i]);
    }
  }

  /** The polling period, in milliseconds. */
  const PollMs := 2000

  class AlarmCard {
    var prev: seq<Alarm>
    var pinned: seq<Alarm>
    var highlighted: set<string>
    var display: seq<Alarm>

    /** Pinned alarms carry their derived id, and every highlighted id is pinned. */
    ghost predicate Valid()
      reads this
    {
      && (forall p | p in pinned :: p.id.Some?)
      && (forall h | h in highlighted :: HasKey(pinned, RawId, Some(h)))
    }

    ghost predicate Cycled(prev0: seq<Alarm>, pinned0: seq<Alarm>, fetched: seq<Alarm>)
      reads this
    {
      && highlighted == Marked(AlarmChanged, prev0, AlarmId, fetched)
      && pinned == Batch(AlarmChanged, prev0, WithId, RawId, fetched, pinned0) + pinned0
      && display == Arrange(WithId, RawId, fetched, pinned)
      && prev == fetched
    }

    constructor ()
      ensures Valid()
      ensures prev == [] && pinned == [] && highlighted == {} && display == []
    {
      prev, pinned, highlighted, display := [], [], {}, [];
    }

    /** One poll's reconciliation of the fetched alarm list. */
    method Reconcile(fetched: seq<Alarm>)
      requires Valid()
      modifies this
      ensures Valid()
      ensures Cycled(old(prev), old(pinned), fetched)
      ensures forall d | d in display :: d.id.Some?
    {
      var marks, batch := Scan(AlarmChanged, prev, WithId, RawId, AlarmId, fetched, pinned);
      var oldTop := pinned;
      NothingUnpinned(AlarmChanged, prev, WithId, RawId, fetched, pinned);
      BatchIsFresh(AlarmChanged, prev, WithId, RawId, fetched, pinned);
      forall x | x in batch
        ensures x.id.Some?
      {
        BatchMember(AlarmChanged, prev, WithId, RawId, fetched, oldTop, x);
      }
      pinned := Promote(batch, RawId, pinned);
      var removed := Without(oldTop, RawId, pinned);
      assert removed == [];
      var remaining := Without(Stamped(WithId, fetched), RawId, pinned);
      display := pinned + remaining;
      forall d | d in remaining
        ensures d.id.Some?
      {
        WithoutMember(Stamped(WithId, fetched), RawId, pinned, d);
      }
      HighlightsPinned(prev, fetched, oldTop);
      highlighted := marks;
      prev := fetched;
    }

    /** One poll, as in the nodes card. */
    method Poll(resp: Response<Alarm>)
      requires Valid()
      modifies this
      ensures Valid()
      ensures GetData(resp).List? ==> Cycled(old(prev), old(pinned), GetData(resp).items)
      ensures GetData(resp).NotAList? ==> unchanged(this)
    {
      var data := GetData(resp);
      if data.List? {
        Reconcile(data.items);
      }
    }
  }

  // ---------------------------------------------------------------------
  // Severity chips

  datatype Level = Critical | Major | Minor | Cleared | Warning

  /** `a.severity?.toUpperCase()` compared against the five chip names. */
  function LevelOf(a: Alarm): Option<Level>
  {
    if a.severity.None? then None
    else
      var sev := ToUpper(a.severity.value);
      if sev == "CRITICAL" then Some(Critical)
      else if sev == "MAJOR" then Some(Major)
      else if sev == "MINOR" then Some(Minor)
      else if sev == "CLEARED" then Some(Cleared)
      else if sev == "WARNING" then Some(Warning)
      else None
  }

  datatype SeverityCounts = SeverityCounts(critical: nat, major: nat, minor: nat, cleared: nat, warning: nat)
  {
    function Total(): nat
    {
      critical + major + minor + cleared + warning
    }
  }

  /** One step of the `reduce`. */
  function Tally(acc: SeverityCounts, a: Alarm): SeverityCounts
  {
    match LevelOf(a)
    case Some(Critical) => acc.(critical := acc.critical + 1)
    case Some(Major) => acc.(major := acc.major + 1)
    case Some(Minor) => acc.(minor := acc.minor + 1)
    case Some(Cleared) => acc.(cleared := acc.cleared + 1)
    case Some(Warning) => acc.(warning := acc.warning + 1)
    case None => acc
  }

  /** `alarms.reduce(Tally, zero)`, a left fold. */
  function AlarmCounts(alarms: seq<Alarm>): SeverityCounts
  {
    if alarms == [] then SeverityCounts(0, 0, 0, 0, 0)
    else Tally(AlarmCounts(alarms[..|alarms| - 1]), alarms[|alarms| - 1])
  }

  /** The number of alarms whose severity falls in `level` (or in no bucket, for `None`). */
  function CountLevel(alarms: seq<Alarm>, level: Option<Level>): nat
  {
    CountWhere(alarms, (a: Alarm) => LevelOf(a) == level)
  }

  /**
   * Each chip counts exactly the alarms of its severity, and the chips
   * together with the alarms of missing or unknown severity account for
   * every alarm, so the chips never sum to more than the alarm count.
   */
  lemma {:induction false} AlarmCountsAreExact(alarms: seq<Alarm>)
    ensures AlarmCounts(alarms) ==
            SeverityCounts(CountLevel(alarms, Some(Critical)), CountLevel(alarms, Some(Major)),
                           CountLevel(alarms, Some(Minor)), CountLevel(alarms, Some(Cleared)),
                           CountLevel(alarms, Some(Warning)))
    ensures AlarmCounts(alarms).Total() + CountLevel(alarms, None) == |alarms|
  {
    if alarms != [] {
      AlarmCountsAreExact(alarms[..|alarms| - 1]);
    }
  }

  /** Upper-case the severity, as a backend reporting upper-case severities would. */
  function UpperSeverity(a: Alarm): Alarm
  {
    if a.severity.None? then a else a.(severity := Some(ToUpper(a.severity.value)))
  }

  /** Upper-casing a severity does not move its alarm to another chip. */
  lemma LevelOfUpper(a: Alarm)
    ensures LevelOf(UpperSeverity(a)) == LevelOf(a)
  {
    if a.severity.Some? {
      ToUpperIdempotent(a.severity.value);
    }
  }

  /** The counts do not depend on the case of the severities. */
  lemma {:induction false} AlarmCountsIgnoreCase(alarms: seq<Alarm>)
    ensures AlarmCounts(Stamped(UpperSeverity, alarms)) == AlarmCounts(alarms)
  {
    if alarms != [] {
      var init := alarms[..|alarms| - 1];
      var upper := Stamped(UpperSeverity, alarms);
      assert upper[..|alarms| - 1] == Stamped(UpperSeverity, init);
      AlarmCountsIgnoreCase(init);
      LevelOfUpper(alarms[|alarms| - 1]);
    }
  }
}
