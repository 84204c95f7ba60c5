/**
 * The diff-and-promote reconciliation that the nodes, alarms,
 * configuration and performance cards each write out by hand. One cycle,
 * given the previous snapshot `prev`, the pinned list `pinned` and a new
 * snapshot `snap`:
 *
 *   1. every record `r` of `snap` for which `changed(prev, r)` holds puts
 *      `mark(r)` into this cycle's highlight set, and, when no pinned
 *      record has its key, its stamped form `stamp(r)` joins the batch
 *      (snapshot order);
 *   2. the new pinned list is the batch followed by the old pinned list
 *      minus records whose key is in the batch;
 *   3. the display is the new pinned list followed by the stamped snapshot
 *      records whose key is not pinned.
 *
 * The parameters let one definition serve all four cards: `changed` is the
 * card's change test against its own kind of previous state `P`, `stamp`
 * is what the card pushes (the alarm card adds a derived `id`, the others
 * push the record itself), `pinKey` is the key compared against pinned
 * records and `mark` the key put into the highlight set.
 */
module Pinning {
  import opened Collections

  /** `snap.map(stamp)`. */
  function Stamped<R, S>(stamp: R -> S, snap: seq<R>): (r: seq<S>)
    ensures |r| == |snap|
    ensures forall i | 0 <= i < |snap| :: r[i] == stamp(snap[i])
  {
    if snap == [] then [] else [stamp(snap[0])] + Stamped(stamp, snap[1..])
  }

  lemma StampedIdentity<T>(snap: seq<T>)
    ensures Stamped(Identity, snap) == snap
  {
  }

  /** The highlight keys of this cycle, built as the `forEach` loop builds them. */
  function Marked<P, R, H>(changed: (P, R) -> bool, prev: P, mark: R -> H, snap: seq<R>): set<H>
  {
    if snap == [] then {}
    else
      var r := snap[|snap| - 1];
      Marked(changed, prev, mark, snap[..|snap| - 1]) + (if changed(prev, r) then {mark(r)} else {})
  }

  /** The records pushed onto the new-or-changed batch, in snapshot order. */
  function Batch<P, R, S, K(==)>(changed: (P, R) -> bool, prev: P, stamp: R -> S, pinKey: S -> K,
                                 snap: seq<R>, pinned: seq<S>): seq<S>
  {
    if snap == [] then []
    else
      var r := snap[|snap| - 1];
      Batch(changed, prev, stamp, pinKey, snap[..|snap| - 1], pinned) +
      (if changed(prev, r) && !HasKey(pinned, pinKey, pinKey(stamp(r))) then [stamp(r)] else [])
  }

  /** `[...batch, ...pinned.filter(p => !batch.some(b => key(b) === key(p)))]`. */
  function Promote<S, K(==)>(batch: seq<S>, pinKey: S -> K, pinned: seq<S>): seq<S>
  {
    batch + Without(pinned, pinKey, batch)
  }

  /** The displayed list: the pinned records, then the unpinned rest of the snapshot. */
  function Arrange<R, S, K(==)>(stamp: R -> S, pinKey: S -> K, snap: seq<R>, pinned: seq<S>): seq<S>
  {
    pinned + Without(Stamped(stamp, snap), pinKey, pinned)
  }

  /**
   * The `forEach` pass of a cycle: collects the highlight keys and the
   * batch of newly pinned records.
   */
  method Scan<P, R, S, K(==), H>(changed: (P, R) -> bool, prev: P, stamp: R -> S, pinKey: S -> K,
                                 mark: R -> H, snap: seq<R>, pinned: seq<S>)
    returns (marks: set<H>, batch: seq<S>)
    ensures marks == Marked(changed, prev, mark, snap)
    ensures batch == Batch(changed, prev, stamp, pinKey, snap, pinned)
  {
    marks, batch := {}, [];
    for i := 0 to |snap|
      invariant marks == Marked(changed, prev, mark, snap[..i])
      invariant batch == Batch(changed, prev, stamp, pinKey, snap[..i], pinned)
    {
      assert snap[..i + 1][..i] == snap[..i];
      var r := snap[i];
      if changed(prev, r) {
        marks := marks + {mark(r)};
        if !HasKey(pinned, pinKey, pinKey(stamp(r))) {
          batch := batch + [stamp(r)];
        }
      }
    }
    assert snap[..|snap|] == snap;
  }

  /** A key is highlighted iff some record of the snapshot carrying it is changed. */
  lemma {:induction false} MarkedMember<P, R, H>(changed: (P, R) -> bool, prev: P, mark: R -> H,
                                                 snap: seq<R>, h: H)
    ensures h in Marked(changed, prev, mark, snap) <==>
            exists i | 0 <= i < |snap| :: changed(prev, snap[i]) && mark(snap[i]) == h
  {
    if snap != [] {
      var init := snap[..|snap| - 1];
      MarkedMember(changed, prev, mark, init, h);
      assert forall i | 0 <= i < |init| :: init[i] == snap[i];
    }
  }

  /**
   * A record is in the batch iff it is the stamp of a changed snapshot
   * record whose key was not pinned.
   */
  lemma {:induction false} BatchMember<P, R, S, K>(changed: (P, R) -> bool, prev: P, stamp: R -> S,
                                                   pinKey: S -> K, snap: seq<R>, pinned: seq<S>, x: S)
    ensures x in Batch(changed, prev, stamp, pinKey, snap, pinned) <==>
            exists i | 0 <= i < |snap| :: changed(prev, snap[i]) && stamp(snap[i]) == x &&
                                          !HasKey(pinned, pinKey, pinKey(x))
  {
    if snap != [] {
      var init := snap[..|snap| - 1];
      BatchMember(changed, prev, stamp, pinKey, init, pinned, x);
      assert forall i | 0 <= i < |init| :: init[i] == snap[i];
    }
  }

  /** No key of the batch is already pinned. */
  lemma BatchIsFresh<P, R, S, K>(changed: (P, R) -> bool, prev: P, stamp: R -> S,
                                 pinKey: S -> K, snap: seq<R>, pinned: seq<S>)
    ensures forall x | x in Batch(changed, prev, stamp, pinKey, snap, pinned) ::
              !HasKey(pinned, pinKey, pinKey(x))
  {
    forall x | x in Batch(changed, prev, stamp, pinKey, snap, pinned)
      ensures !HasKey(pinned, pinKey, pinKey(x))
    {
      BatchMember(changed, prev, stamp, pinKey, snap, pinned, x);
    }
  }

  /**
   * The pinned list only grows: promoting a batch keeps the whole old
   * pinned list, in order, below the batch, and the "removed from top"
   * diagnostic is always empty.
   */
  lemma NothingUnpinned<P, R, S, K>(changed: (P, R) -> bool, prev: P, stamp: R -> S,
                                    pinKey: S -> K, snap: seq<R>, pinned: seq<S>)
    ensures Promote(Batch(changed, prev, stamp, pinKey, snap, pinned), pinKey, pinned) ==
            Batch(changed, prev, stamp, pinKey, snap, pinned) + pinned
    ensures Without(pinned, pinKey,
                    Promote(Batch(changed, prev, stamp, pinKey, snap, pinned), pinKey, pinned)) == []
  {
    var batch := Batch(changed, prev, stamp, pinKey, snap, pinned);
    BatchIsFresh(changed, prev, stamp, pinKey, snap, pinned);
    forall p | p in pinned
      ensures !HasKey(batch, pinKey, pinKey(p))
    {
      HasKeyOfMember(pinned, pinKey, p);
      forall i | 0 <= i < |batch|
        ensures pinKey(batch[i]) != pinKey(p)
      {
        assert batch[i] in batch;
      }
    }
    WithoutKeepsAll(pinned, pinKey, batch);
    forall p | p in pinned
      ensures HasKey(batch + pinned, pinKey, pinKey(p))
    {
      assert p in batch + pinned;
      HasKeyOfMember(batch + pinned, pinKey, p);
    }
    WithoutDropsAll(pinned, pinKey, batch + pinned);
  }

  /** Every record flagged changed in a cycle has its key pinned afterwards. */
  lemma ChangedArePinned<P, R, S, K>(changed: (P, R) -> bool, prev: P, stamp: R -> S,
                                     pinKey: S -> K, snap: seq<R>, pinned: seq<S>, r: R)
    requires r in snap && changed(prev, r)
    ensures HasKey(Batch(changed, prev, stamp, pinKey, snap, pinned) + pinned, pinKey, pinKey(stamp(r)))
  {
    var batch := Batch(changed, prev, stamp, pinKey, snap, pinned);
    HasKeyAppend(batch, pinned, pinKey, pinKey(stamp(r)));
    if !HasKey(pinned, pinKey, pinKey(stamp(r))) {
      var i :| 0 <= i < |snap| && snap[i] == r;
      BatchMember(changed, prev, stamp, pinKey, snap, pinned, stamp(r));
      HasKeyOfMember(batch, pinKey, stamp(r));
    }
  }

  /**
   * The display holds every pinned record as often as the pinned list
   * does, and every record whose key is not pinned exactly as often as the
   * stamped snapshot does; a record whose key is pinned appears only
   * through the pinned list.
   */
  lemma ArrangeCount<R, S, K>(stamp: R -> S, pinKey: S -> K, snap: seq<R>, pinned: seq<S>, x: S)
    ensures multiset(Arrange(stamp, pinKey, snap, pinned))[x] ==
            multiset(pinned)[x] +
            (if HasKey(pinned, pinKey, pinKey(x)) then 0 else multiset(Stamped(stamp, snap))[x])
  {
    WithoutCount(Stamped(stamp, snap), pinKey, pinned, x);
  }

  lemma {:induction false} DistinctOnce<S, K>(s: seq<S>, key: S -> K, x: S)
    requires DistinctKeys(s, key) && x in s
    ensures multiset(s)[x] == 1
  {
    assert s == [s[0]] + s[1..];
    assert DistinctKeys(s[1..], key) by {
      forall i, j | 0 <= i < j < |s[1..]| ensures key(s[1..][i]) != key(s[1..][j]) {
        assert s[1..][i] == s[i + 1] && s[1..][j] == s[j + 1];
      }
    }
    if x == s[0] {
      forall i | 0 <= i < |s[1..]| ensures s[1..][i] != x {
        assert s[1..][i] == s[i + 1];
      }
    } else {
      DistinctOnce(s[1..], key, x);
    }
  }

  /**
   * With distinct keys in the snapshot, every snapshot record whose key is
   * not pinned is displayed exactly once.
   */
  lemma UnpinnedShownOnce<R, S, K>(stamp: R -> S, pinKey: S -> K, snap: seq<R>, pinned: seq<S>, x: S)
    requires DistinctKeys(Stamped(stamp, snap), pinKey)
    requires x in Stamped(stamp, snap) && !HasKey(pinned, pinKey, pinKey(x))
    ensures multiset(Arrange(stamp, pinKey, snap, pinned))[x] == 1
  {
    ArrangeCount(stamp, pinKey, snap, pinned, x);
    DistinctOnce(Stamped(stamp, snap), pinKey, x);
    if x in pinned {
      HasKeyOfMember(pinned, pinKey, x);
    }
  }

  /**
   * Once a key is pinned, the display shows under that key only records
   * that were already pinned: a newer version of the record is highlighted
   * but not shown.
   */
  lemma StalePinned<P, R, S, K>(changed: (P, R) -> bool, prev: P, stamp: R -> S,
                                pinKey: S -> K, snap: seq<R>, pinned: seq<S>, x: S)
    requires HasKey(pinned, pinKey, pinKey(x))
    requires x in Arrange(stamp, pinKey, snap, Batch(changed, prev, stamp, pinKey, snap, pinned) + pinned)
    ensures x in pinned
  {
    var batch := Batch(changed, prev, stamp, pinKey, snap, pinned);
    var top := batch + pinned;
    ArrangeCount(stamp, pinKey, snap, top, x);
    HasKeyAppend(batch, pinned, pinKey, pinKey(x));
    BatchMember(changed, prev, stamp, pinKey, snap, pinned, x);
  }

  /**
   * With distinct keys in the snapshot and in the old pinned list, the new
   * pinned list has distinct keys too.
   */
  lemma {:induction false} BatchDistinct<P, R, S, K>(changed: (P, R) -> bool, prev: P, stamp: R -> S,
                                                     pinKey: S -> K, snap: seq<R>, pinned: seq<S>)
    requires DistinctKeys(Stamped(stamp, snap), pinKey)
    ensures DistinctKeys(Batch(changed, prev, stamp, pinKey, snap, pinned), pinKey)
  {
    if snap != [] {
      var init := snap[..|snap| - 1];
      var r := snap[|snap| - 1];
      var st := Stamped(stamp, snap);
      assert DistinctKeys(Stamped(stamp, init), pinKey) by {
        assert forall i | 0 <= i < |init| :: Stamped(stamp, init)[i] == st[i];
      }
      BatchDistinct(changed, prev, stamp, pinKey, init, pinned);
      var b := Batch(changed, prev, stamp, pinKey, init, pinned);
      forall x | x in b
        ensures pinKey(x) != pinKey(stamp(r))
      {
        BatchMember(changed, prev, stamp, pinKey, init, pinned, x);
        var i :| 0 <= i < |init| && stamp(init[i]) == x;
        assert st[i] == x && st[|snap| - 1] == stamp(r);
      }
      var full := Batch(changed, prev, stamp, pinKey, snap, pinned);
      forall i, j | 0 <= i < j < |full|
        ensures pinKey(full[i]) != pinKey(full[j])
      {
        if j == |b| {
          assert full[i] == b[i];
          assert b[i] in b;
        }
      }
    }
  }

  lemma PinnedStayDistinct<P, R, S, K>(changed: (P, R) -> bool, prev: P, stamp: R -> S,
                                       pinKey: S -> K, snap: seq<R>, pinned: seq<S>)
    requires DistinctKeys(Stamped(stamp, snap), pinKey)
    requires DistinctKeys(pinned, pinKey)
    ensures DistinctKeys(Batch(changed, prev, stamp, pinKey, snap, pinned) + pinned, pinKey)
  {
    var batch := Batch(changed, prev, stamp, pinKey, snap, pinned);
    BatchDistinct(changed, prev, stamp, pinKey, snap, pinned);
    BatchIsFresh(changed, prev, stamp, pinKey, snap, pinned);
    var top := batch + pinned;
    forall i, j | 0 <= i < j < |top|
      ensures pinKey(top[i]) != pinKey(top[j])
    {
      if i < |batch| <= j {
        assert top[i] in batch;
        assert top[j] == pinned[j - |batch|];
      } else if |batch| <= i {
        assert top[i] == pinned[i - |batch|] && top[j] == pinned[j - |batch|];
      }
    }
  }

  /**
   * A cycle in which nothing changed leaves the pinned list alone, clears
   * the highlight set and shows the pinned records above the rest of the
   * snapshot in its own order; with nothing pinned the display is the
   * snapshot itself.
   */
  lemma QuietCycle<P, R, S, K, H>(changed: (P, R) -> bool, prev: P, stamp: R -> S,
                                  pinKey: S -> K, mark: R -> H, snap: seq<R>, pinned: seq<S>)
    requires forall i | 0 <= i < |snap| :: !changed(prev, snap[i])
    ensures Marked(changed, prev, mark, snap) == {}
    ensures Batch(changed, prev, stamp, pinKey, snap, pinned) == []
    ensures pinned == [] ==> Arrange(stamp, pinKey, snap, pinned) == Stamped(stamp, snap)
  {
    forall h | h in Marked(changed, prev, mark, snap)
      ensures false
    {
      MarkedMember(changed, prev, mark, snap, h);
    }
    var batch := Batch(changed, prev, stamp, pinKey, snap, pinned);
    if batch != [] {
      BatchMember(changed, prev, stamp, pinKey, snap, pinned, batch[0]);
      assert false;
    }
    if pinned == [] {
      WithoutKeepsAll(Stamped(stamp, snap), pinKey, pinned);
    }
  }

  /** An empty snapshot changes nothing but the highlight set, which it empties. */
  lemma {:induction false} EmptySnapshot<P, R, S, K, H>(changed: (P, R) -> bool, prev: P, stamp: R -> S,
                                                        pinKey: S -> K, mark: R -> H, pinned: seq<S>)
    ensures Marked(changed, prev, mark, []) == {}
    ensures Promote(Batch(changed, prev, stamp, pinKey, [], pinned), pinKey, pinned) == pinned
    ensures Arrange(stamp, pinKey, [], pinned) == pinned
  {
    WithoutKeepsAll(pinned, pinKey, []);
  }
}
