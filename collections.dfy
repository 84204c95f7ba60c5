/**
 * Generic list helpers that the dashboard cards use: the `find`, `some`
 * and `filter` idioms of the cards, and the `new Map(list.map(...))`
 * construction, each with the facts the card proofs rely on.
 */
module Collections {

  datatype Option<T> = None | Some(value: T)

  /** `list.some(x => key(x) === k)`, also the truthiness of `list.find(...)`. */
  predicate HasKey<S, K(==)>(s: seq<S>, key: S -> K, k: K)
  {
    exists i | 0 <= i < |s| :: key(s[i]) == k
  }

  lemma HasKeyAppend<S, K>(a: seq<S>, b: seq<S>, key: S -> K, k: K)
    ensures HasKey(a + b, key, k) <==> HasKey(a, key, k) || HasKey(b, key, k)
  {
    if HasKey(a + b, key, k) {
      var i :| 0 <= i < |a + b| && key((a + b)[i]) == k;
      if i >= |a| {
        assert key(b[i - |a|]) == k;
      }
    }
    if HasKey(a, key, k) {
      var i :| 0 <= i < |a| && key(a[i]) == k;
      assert key((a + b)[i]) == k;
    }
    if HasKey(b, key, k) {
      var i :| 0 <= i < |b| && key(b[i]) == k;
      assert key((a + b)[|a| + i]) == k;
    }
  }

  lemma HasKeyOfMember<S, K>(s: seq<S>, key: S -> K, x: S)
    requires x in s
    ensures HasKey(s, key, key(x))
  {
    var i :| 0 <= i < |s| && s[i] == x;
  }

  /** The position of the first element of `s` with key `k`, or `|s|` when there is none. */
  function FirstIndex<S, K(==)>(s: seq<S>, key: S -> K, k: K): (i: nat)
    ensures i <= |s|
    ensures i < |s| ==> key(s[i]) == k
    ensures forall j | 0 <= j < i :: key(s[j]) != k
  {
    if s == [] then 0
    else if key(s[0]) == k then 0
    else
      var i := FirstIndex(s[1..], key, k);
      assert forall j | 1 <= j < i + 1 :: s[j] == s[1..][j - 1];
      i + 1
  }

  /** A first occurrence exists exactly when some element carries the key. */
  lemma FirstIndexFound<S, K>(s: seq<S>, key: S -> K, k: K)
    ensures FirstIndex(s, key, k) < |s| <==> HasKey(s, key, k)
  {
  }

  /**
   * Appending an element moves no first occurrence already present; the
   * appended element is the first occurrence of its key only if none was.
   */
  lemma FirstIndexAppend<S, K>(s: seq<S>, x: S, key: S -> K, k: K)
    ensures FirstIndex(s + [x], key, k) ==
            if FirstIndex(s, key, k) < |s| then FirstIndex(s, key, k)
            else if key(x) == k then |s| else |s| + 1
  {
    var i := FirstIndex(s, key, k);
    assert forall t | 0 <= t < |s| :: (s + [x])[t] == s[t];
    if i < |s| {
      assert key((s + [x])[i]) == k;
    } else if key(x) == k {
      assert key((s + [x])[|s|]) == k;
    }
  }

  /** Two lookups that match the same elements find the same first one. */
  lemma FirstIndexSameMatches<S, K1, K2>(s: seq<S>, key1: S -> K1, k1: K1, key2: S -> K2, k2: K2)
    requires forall j | 0 <= j < |s| :: key1(s[j]) == k1 <==> key2(s[j]) == k2
    ensures FirstIndex(s, key1, k1) == FirstIndex(s, key2, k2)
  {
    var f := FirstIndex(s, key1, k1);
    var g := FirstIndex(s, key2, k2);
    if f < |s| {
      assert key2(s[f]) == k2;
    }
    if g < |s| {
      assert key1(s[g]) == k1;
    }
  }

  /** `list.find(x => key(x) === k)`: the first element with key `k`, if any. */
  function FindFirst<S, K(==)>(s: seq<S>, key: S -> K, k: K): (r: Option<S>)
    ensures r.None? <==> !HasKey(s, key, k)
    ensures r.Some? ==> exists i | 0 <= i < |s| :: s[i] == r.value && key(s[i]) == k &&
                          forall j | 0 <= j < i :: key(s[j]) != k
  {
    var i := FirstIndex(s, key, k);
    if i < |s| then Some(s[i]) else None
  }

  /**
   * `!prev || prev !== x` with `prev = s.find(y => key(y) === k)`, for the
   * deep comparison of whole records: true when no element has key `k` or
   * the first one that has it differs from `x`.
   */
  predicate DiffersFromFirst<S(==), K(==)>(s: seq<S>, key: S -> K, k: K, x: S)
  {
    match FindFirst(s, key, k)
    case None => true
    case Some(p) => p != x
  }

  /** `x` counts as unchanged exactly when it equals the first element of `s` with key `k`. */
  lemma DiffersFromFirstIff<S, K>(s: seq<S>, key: S -> K, k: K, x: S)
    ensures !DiffersFromFirst(s, key, k, x) <==>
            exists i | 0 <= i < |s| :: s[i] == x && key(s[i]) == k &&
                                       forall j | 0 <= j < i :: key(s[j]) != k
  {
    if exists i | 0 <= i < |s| :: s[i] == x && key(s[i]) == k && forall j | 0 <= j < i :: key(s[j]) != k {
      var i :| 0 <= i < |s| && s[i] == x && key(s[i]) == k && forall j | 0 <= j < i :: key(s[j]) != k;
      var f := FirstIndex(s, key, k);
      assert f <= i;
    }
  }

  /**
   * `s.filter(x => !drop.some(d => key(d) === key(x)))`: the elements of `s`
   * whose key is not the key of any element of `drop`, in order.
   */
  function Without<S, K(==)>(s: seq<S>, key: S -> K, drop: seq<S>): seq<S>
  {
    if s == [] then []
    else if HasKey(drop, key, key(s[0])) then Without(s[1..], key, drop)
    else [s[0]] + Without(s[1..], key, drop)
  }

  lemma {:induction false} WithoutCount<S, K>(s: seq<S>, key: S -> K, drop: seq<S>, x: S)
    ensures multiset(Without(s, key, drop))[x] ==
            if HasKey(drop, key, key(x)) then 0 else multiset(s)[x]
  {
    if s != [] {
      WithoutCount(s[1..], key, drop, x);
      assert s == [s[0]] + s[1..];
    }
  }

  lemma WithoutMember<S, K>(s: seq<S>, key: S -> K, drop: seq<S>, x: S)
    ensures x in Without(s, key, drop) <==> x in s && !HasKey(drop, key, key(x))
  {
    WithoutCount(s, key, drop, x);
  }

  /** Nothing is dropped when no key of `s` occurs in `drop`. */
  lemma {:induction false} WithoutKeepsAll<S, K>(s: seq<S>, key: S -> K, drop: seq<S>)
    requires forall x | x in s :: !HasKey(drop, key, key(x))
    ensures Without(s, key, drop) == s
  {
    if s != [] {
      assert s[0] in s;
      assert forall x | x in s[1..] :: x in s;
      WithoutKeepsAll(s[1..], key, drop);
    }
  }

  /** Everything is dropped when every key of `s` occurs in `drop`. */
  lemma {:induction false} WithoutDropsAll<S, K>(s: seq<S>, key: S -> K, drop: seq<S>)
    requires forall x | x in s :: HasKey(drop, key, key(x))
    ensures Without(s, key, drop) == []
  {
    if s != [] {
      assert s[0] in s;
      assert forall x | x in s[1..] :: x in s;
      WithoutDropsAll(s[1..], key, drop);
    }
  }

  /**
   * `new Map(s.map(x => [key(x), x]))`: a map from each key to the LAST
   * element carrying it.
   */
  function IndexBy<S, K(==)>(s: seq<S>, key: S -> K): map<K, S>
  {
    if s == [] then map[]
    else IndexBy(s[..|s| - 1], key)[key(s[|s| - 1]) := s[|s| - 1]]
  }

  lemma {:induction false} IndexByLastWins<S, K>(s: seq<S>, key: S -> K)
    ensures IndexBy(s, key).Keys == set i | 0 <= i < |s| :: key(s[i])
    ensures forall k | k in IndexBy(s, key) ::
              exists i | 0 <= i < |s| :: s[i] == IndexBy(s, key)[k] && key(s[i]) == k &&
                forall j | i < j < |s| :: key(s[j]) != k
  {
    if s != [] {
      var init := s[..|s| - 1];
      var x := s[|s| - 1];
      IndexByLastWins(init, key);
      var m := IndexBy(s, key);
      assert forall i | 0 <= i < |init| :: init[i] == s[i];
      forall k | k in m
        ensures exists i | 0 <= i < |s| :: s[i] == m[k] && key(s[i]) == k &&
                  forall j | i < j < |s| :: key(s[j]) != k
      {
        if k == key(x) {
          assert s[|s| - 1] == m[k];
        } else {
          var i :| 0 <= i < |init| && init[i] == IndexBy(init, key)[k] && key(init[i]) == k &&
                   forall j | i < j < |init| :: key(init[j]) != k;
          assert s[i] == m[k];
        }
      }
    }
  }

  function Identity<T>(x: T): T
  {
    x
  }

  /** No two elements of `s` share a key. */
  ghost predicate DistinctKeys<S, K>(s: seq<S>, key: S -> K)
  {
    forall i, j | 0 <= i < j < |s| :: key(s[i]) != key(s[j])
  }

  /** `s.filter(p).length`, counted element by element as a `reduce` or `forEach` pass would. */
  function CountWhere<T>(s: seq<T>, p: T -> bool): nat
  {
    if s == [] then 0 else CountWhere(s[..|s| - 1], p) + (if p(s[|s| - 1]) then 1 else 0)
  }

  lemma CountWhereSnoc<T>(s: seq<T>, x: T, p: T -> bool)
    ensures CountWhere(s + [x], p) == CountWhere(s, p) + (if p(x) then 1 else 0)
  {
    assert (s + [x])[..|s|] == s;
  }

  /** No element satisfies `p` exactly when none is counted. */
  lemma {:induction false} CountWhereZero<T>(s: seq<T>, p: T -> bool)
    ensures CountWhere(s, p) == 0 <==> forall i | 0 <= i < |s| :: !p(s[i])
  {
    if s != [] {
      var init := s[..|s| - 1];
      CountWhereZero(init, p);
      assert forall i | 0 <= i < |init| :: init[i] == s[i];
    }
  }
}
