/**
 * The user-activity card: the action list it polls, the four quick
 * counters and the per-day chart. Parsing a timestamp is not modelled:
 * the functions take `timeOf` (milliseconds since the epoch of a
 * timestamp) and `dayOf` (its `YYYY-MM-DD` date) as parameters, and the
 * current time as `now`.
 */
module Users {
  import opened Collections
  import opened Text
  import opened Fetch

  datatype UserAction = UserAction(id: string, username: string, action: string, timestamp: string, ip: string)

  /** 24 hours, in milliseconds. */
  const DayMs := 24 * 60 * 60 * 1000

  /** `actions.filter(a => a.action === name).length`. */
  function CountAction(actions: seq<UserAction>, name: string): nat
  {
    CountWhere(actions, (a: UserAction) => a.action == name)
  }

  /** The user names with a login later than `since`. */
  function LoginNames(actions: seq<UserAction>, timeOf: string -> int, since: int): set<string>
  {
    if actions == [] then {}
    else
      var a := actions[|actions| - 1];
      LoginNames(actions[..|actions| - 1], timeOf, since) +
      (if a.action == "login" && timeOf(a.timestamp) > since then {a.username} else {})
  }

  /**
   * The "Active Users" counter: distinct users who logged in during the 24
   * hours before `now`. The counter is memoised on the action list, so
   * `now` is the time of the render at which the list last changed, not
   * the current time.
   */
  function ActiveUsers(actions: seq<UserAction>, timeOf: string -> int, now: int): nat
  {
    |LoginNames(actions, timeOf, now - DayMs)|
  }

  lemma {:induction false} LoginNamesMember(actions: seq<UserAction>, timeOf: string -> int, since: int, u: string)
    ensures u in LoginNames(actions, timeOf, since) <==>
            exists i | 0 <= i < |actions| ::
              actions[i].username == u && actions[i].action == "login" && timeOf(actions[i].timestamp) > since
  {
    if actions != [] {
      var init := actions[..|actions| - 1];
      LoginNamesMember(init, timeOf, since, u);
      assert forall i | 0 <= i < |init| :: init[i] == actions[i];
    }
  }

  /** Each active user has at least one login, so the counter never exceeds the number of logins. */
  lemma {:induction false} ActiveUsersBound(actions: seq<UserAction>, timeOf: string -> int, now: int)
    ensures ActiveUsers(actions, timeOf, now) <= CountAction(actions, "login")
  {
    LoginNamesBound(actions, timeOf, now - DayMs);
  }

  lemma {:induction false} LoginNamesBound(actions: seq<UserAction>, timeOf: string -> int, since: int)
    ensures |LoginNames(actions, timeOf, since)| <= CountAction(actions, "login")
  {
    if actions != [] {
      LoginNamesBound(actions[..|actions| - 1], timeOf, since);
    }
  }

  // ---------------------------------------------------------------------
  // The chart

  /** The four counters a day's bar stacks. */
  datatype Counter = Login | FailedLogin | ConfigChange | Logout

  /** The action name each counter counts. */
  function CounterName(c: Counter): string
  {
    match c
    case Login => "login"
    case FailedLogin => "failedLogin"
    case ConfigChange => "configChange"
    case Logout => "logout"
  }

  /** One bar of the chart. */
  datatype Bucket = Bucket(date: string, login: nat, failedLogin: nat, configChange: nat, logout: nat)

  function Get(b: Bucket, c: Counter): nat
  {
    match c
    case Login => b.login
    case FailedLogin => b.failedLogin
    case ConfigChange => b.configChange
    case Logout => b.logout
  }

  function EmptyBucket(date: string): Bucket
  {
    Bucket(date, 0, 0, 0, 0)
  }

  /**
   * Counting one action into its day's bar: the counter named by the
   * action goes up by one; any other action changes nothing.
   */
  function Bump(b: Bucket, action: string): (r: Bucket)
    ensures r.date == b.date
    ensures forall c :: Get(r, c) == Get(b, c) + (if action == CounterName(c) then 1 else 0)
  {
    if action == "login" then b.(login := b.login + 1)
    else if action == "failedLogin" then b.(failedLogin := b.failedLogin + 1)
    else if action == "configChange" then b.(configChange := b.configChange + 1)
    else if action == "logout" then b.(logout := b.logout + 1)
    else b
  }

  /**
   * Counting as written: the test `a.action in grouped[date]` also
   * accepts the bar's own `date` field, and `++` on the date string makes
   * it `NaN`; `None` stands for a bar whose date is no longer a string.
   */
  function BumpAsWritten(b: Option<Bucket>, action: string): Option<Bucket>
  {
    if b.None? || action == "date" then None else Some(Bump(b.value, action))
  }

  /** The day of an action. */
  function Day(a: UserAction, dayOf: string -> string): string
  {
    dayOf(a.timestamp)
  }

  /** The days on which some action happened. */
  function Days(actions: seq<UserAction>, dayOf: string -> string): set<string>
  {
    set i | 0 <= i < |actions| :: Day(actions[i], dayOf)
  }

  /** `Day` as a key function over actions. */
  function DayKey(dayOf: string -> string): UserAction -> string
  {
    a => Day(a, dayOf)
  }

  /** The days of `actions`, each listed once, in the order they first occur. */
  function DayOrder(actions: seq<UserAction>, dayOf: string -> string): seq<string>
  {
    if actions == [] then []
    else
      var order := DayOrder(actions[..|actions| - 1], dayOf);
      var d := Day(actions[|actions| - 1], dayOf);
      if d in order then order else order + [d]
  }

  /** The day order lists every day that has an action, each exactly once. */
  lemma {:induction false} DayOrderDays(actions: seq<UserAction>, dayOf: string -> string)
    ensures DistinctKeys(DayOrder(actions, dayOf), Identity)
    ensures forall d :: d in DayOrder(actions, dayOf) <==> d in Days(actions, dayOf)
  {
    if actions != [] {
      var init := actions[..|actions| - 1];
      var x := actions[|actions| - 1];
      assert actions == init + [x];
      DayOrderDays(init, dayOf);
      DaysAppend(init, x, dayOf);
    }
  }

  /** A day that already has an action keeps its first action when one more is appended. */
  lemma SeenDayFirstIndex(init: seq<UserAction>, x: UserAction, dayOf: string -> string, d: string)
    requires d in Days(init, dayOf)
    ensures FirstIndex(init + [x], DayKey(dayOf), d) == FirstIndex(init, DayKey(dayOf), d) < |init|
  {
    var k :| 0 <= k < |init| && Day(init[k], dayOf) == d;
    assert DayKey(dayOf)(init[k]) == d;
    FirstIndexFound(init, DayKey(dayOf), d);
    FirstIndexAppend(init, x, DayKey(dayOf), d);
  }

  /** An appended action on a day not seen before is that day's first action. */
  lemma NewDayFirstIndex(init: seq<UserAction>, x: UserAction, dayOf: string -> string)
    requires Day(x, dayOf) !in Days(init, dayOf)
    ensures FirstIndex(init + [x], DayKey(dayOf), Day(x, dayOf)) == |init|
  {
    assert forall k | 0 <= k < |init| :: DayKey(dayOf)(init[k]) == Day(init[k], dayOf);
    FirstIndexFound(init, DayKey(dayOf), Day(x, dayOf));
    FirstIndexAppend(init, x, DayKey(dayOf), Day(x, dayOf));
  }

  /**
   * The day order lists every day that has an action, each once, and a
   * day comes before another exactly when its first action does.
   */
  lemma {:induction false} DayOrderFirstOccurrence(actions: seq<UserAction>, dayOf: string -> string)
    ensures DistinctKeys(DayOrder(actions, dayOf), Identity)
    ensures forall d :: d in DayOrder(actions, dayOf) <==> d in Days(actions, dayOf)
    ensures forall i, j | 0 <= i < j < |DayOrder(actions, dayOf)| ::
              FirstIndex(actions, DayKey(dayOf), DayOrder(actions, dayOf)[i]) <
              FirstIndex(actions, DayKey(dayOf), DayOrder(actions, dayOf)[j])
  {
    DayOrderDays(actions, dayOf);
    if actions != [] {
      var init := actions[..|actions| - 1];
      var x := actions[|actions| - 1];
      var o := DayOrder(init, dayOf);
      assert actions == init + [x];
      DayOrderFirstOccurrence(init, dayOf);
      forall d | d in o
        ensures FirstIndex(actions, DayKey(dayOf), d) == FirstIndex(init, DayKey(dayOf), d) < |init|
      {
        SeenDayFirstIndex(init, x, dayOf, d);
      }
      if Day(x, dayOf) !in o {
        NewDayFirstIndex(init, x, dayOf);
      }
    }
  }

  /** The bar of day `d`: the actions of that day counted in order. */
  function DayBucket(actions: seq<UserAction>, dayOf: string -> string, d: string): (r: Bucket)
    ensures r.date == d
  {
    if actions == [] then EmptyBucket(d)
    else
      var a := actions[|actions| - 1];
      var b := DayBucket(actions[..|actions| - 1], dayOf, d);
      if Day(a, dayOf) == d then Bump(b, a.action) else b
  }

  /** The bar of day `d` as the code builds it. */
  function DayBucketAsWritten(actions: seq<UserAction>, dayOf: string -> string, d: string): Option<Bucket>
  {
    if actions == [] then Some(EmptyBucket(d))
    else
      var a := actions[|actions| - 1];
      var b := DayBucketAsWritten(actions[..|actions| - 1], dayOf, d);
      if Day(a, dayOf) == d then BumpAsWritten(b, a.action) else b
  }

  /** Without an action named `date`, the bar as written is the intended one. */
  lemma {:induction false} AsWrittenAgrees(actions: seq<UserAction>, dayOf: string -> string, d: string)
    requires forall i | 0 <= i < |actions| :: actions[i].action != "date"
    ensures DayBucketAsWritten(actions, dayOf, d) == Some(DayBucket(actions, dayOf, d))
  {
    if actions != [] {
      AsWrittenAgrees(actions[..|actions| - 1], dayOf, d);
    }
  }

  /** One action named `date` destroys the date of its day's bar. */
  lemma DateActionBreaksBar(a: UserAction, dayOf: string -> string)
    requires a.action == "date"
    ensures DayBucketAsWritten([a], dayOf, Day(a, dayOf)) == None
    ensures DayBucket([a], dayOf, Day(a, dayOf)) == EmptyBucket(Day(a, dayOf))
  {
    assert [a][..0] == [];
  }

  /** The sum of counter `c` over a list of bars. */
  function SumOf(bars: seq<Bucket>, c: Counter): nat
  {
    if bars == [] then 0 else SumOf(bars[..|bars| - 1], c) + Get(bars[|bars| - 1], c)
  }

  /** `order.map(d => grouped[d])`. */
  function Values(order: seq<string>, grouped: map<string, Bucket>): (r: seq<Bucket>)
    requires forall i | 0 <= i < |order| :: order[i] in grouped
    ensures |r| == |order|
    ensures forall i | 0 <= i < |order| :: r[i] == grouped[order[i]]
  {
    if order == [] then [] else Values(order[..|order| - 1], grouped) + [grouped[order[|order| - 1]]]
  }

  /** Replacing the bar of one listed day changes the sum by the difference of the two bars. */
  lemma {:induction false} SumOfReplace(order: seq<string>, grouped: map<string, Bucket>, d: string, nb: Bucket, c: Counter)
    requires forall i | 0 <= i < |order| :: order[i] in grouped
    requires d in grouped && DistinctKeys(order, Identity)
    ensures SumOf(Values(order, grouped[d := nb]), c) ==
            SumOf(Values(order, grouped), c) + (if d in order then Get(nb, c) - Get(grouped[d], c) else 0)
  {
    if order != [] {
      var init := order[..|order| - 1];
      var last := order[|order| - 1];
      var g := grouped[d := nb];
      assert forall i | 0 <= i < |init| :: init[i] == order[i];
      SumOfReplace(init, grouped, d, nb, c);
      SumOfAppend(Values(init, grouped), grouped[last], c);
      SumOfAppend(Values(init, g), g[last], c);
      assert d in order <==> d in init || d == last;
      if d == last {
        assert d !in init;
      }
    }
  }

  /** What the grouping pass keeps true of its first `actions`. */
  ghost predicate Grouped(actions: seq<UserAction>, dayOf: string -> string,
                          grouped: map<string, Bucket>, order: seq<string>)
  {
    && grouped.Keys == Days(actions, dayOf)
    && (forall d | d in grouped :: grouped[d] == DayBucket(actions, dayOf, d))
    && DistinctKeys(order, Identity) && (forall d :: d in order <==> d in grouped)
    && (forall c :: SumOf(Values(order, grouped), c) == CountAction(actions, CounterName(c)))
  }

  lemma DaysAppend(actions: seq<UserAction>, a: UserAction, dayOf: string -> string)
    ensures Days(actions + [a], dayOf) == Days(actions, dayOf) + {Day(a, dayOf)}
  {
    var all := actions + [a];
    forall x | x in Days(all, dayOf) ensures x in Days(actions, dayOf) + {Day(a, dayOf)} {
      var j :| 0 <= j < |all| && Day(all[j], dayOf) == x;
      if j < |actions| {
        assert Day(actions[j], dayOf) == x;
      }
    }
    forall x | x in Days(actions, dayOf) ensures x in Days(all, dayOf) {
      var j :| 0 <= j < |actions| && Day(actions[j], dayOf) == x;
      assert Day(all[j], dayOf) == x;
    }
    assert Day(all[|actions|], dayOf) == Day(a, dayOf);
  }

  lemma ValuesAppend(order: seq<string>, d: string, grouped: map<string, Bucket>)
    requires forall i | 0 <= i < |order| :: order[i] in grouped
    requires d in grouped
    ensures Values(order + [d], grouped) == Values(order, grouped) + [grouped[d]]
  {
    assert (order + [d])[..|order|] == order;
  }

  /** Bars of days not listed do not matter. */
  lemma ValuesFrame(order: seq<string>, g1: map<string, Bucket>, g2: map<string, Bucket>)
    requires forall i | 0 <= i < |order| :: order[i] in g1 && order[i] in g2 && g1[order[i]] == g2[order[i]]
    ensures Values(order, g1) == Values(order, g2)
  {
  }

  lemma SumOfAppend(bars: seq<Bucket>, b: Bucket, c: Counter)
    ensures SumOf(bars + [b], c) == SumOf(bars, c) + Get(b, c)
  {
    assert (bars + [b])[..|bars|] == bars;
  }

  /** Adding an action that does not fall on `d` leaves the bar of `d` as it was. */
  lemma DayBucketAppend(actions: seq<UserAction>, a: UserAction, dayOf: string -> string, d: string)
    ensures DayBucket(actions + [a], dayOf, d) ==
            if Day(a, dayOf) == d then Bump(DayBucket(actions, dayOf, d), a.action) else DayBucket(actions, dayOf, d)
  {
    assert (actions + [a])[..|actions|] == actions;
  }

  lemma CountActionAppend(actions: seq<UserAction>, a: UserAction, name: string)
    ensures CountAction(actions + [a], name) == CountAction(actions, name) + (if a.action == name then 1 else 0)
  {
    assert (actions + [a])[..|actions|] == actions;
  }

  /** Listing a new day's bar last keeps the counter sums equal to the action counts. */
  lemma NewDaySum(actions: seq<UserAction>, a: UserAction, dayOf: string -> string,
                  grouped: map<string, Bucket>, order: seq<string>, c: Counter)
    requires forall i | 0 <= i < |order| :: order[i] in grouped
    requires Day(a, dayOf) !in grouped
    requires SumOf(Values(order, grouped), c) == CountAction(actions, CounterName(c))
    ensures SumOf(Values(order + [Day(a, dayOf)], grouped[Day(a, dayOf) := Bump(EmptyBucket(Day(a, dayOf)), a.action)]), c) ==
            CountAction(actions + [a], CounterName(c))
  {
    var date := Day(a, dayOf);
    var b := Bump(EmptyBucket(date), a.action);
    var g := grouped[date := b];
    ValuesAppend(order, date, g);
    ValuesFrame(order, g, grouped);
    SumOfAppend(Values(order, grouped), b, c);
    CountActionAppend(actions, a, CounterName(c));
    assert Get(EmptyBucket(date), c) == 0;
  }

  /** After one more action, each bar kept or opened is the bar of its day. */
  lemma BarsAfterStep(actions: seq<UserAction>, a: UserAction, dayOf: string -> string,
                      grouped: map<string, Bucket>, g: map<string, Bucket>)
    requires forall d | d in grouped :: grouped[d] == DayBucket(actions, dayOf, d)
    requires Day(a, dayOf) in g
    requires g[Day(a, dayOf)] == Bump(DayBucket(actions, dayOf, Day(a, dayOf)), a.action)
    requires forall d | d in g && d != Day(a, dayOf) :: d in grouped && g[d] == grouped[d]
    ensures forall d | d in g :: g[d] == DayBucket(actions + [a], dayOf, d)
  {
    forall d | d in g
      ensures g[d] == DayBucket(actions + [a], dayOf, d)
    {
      DayBucketAppend(actions, a, dayOf, d);
    }
  }

  /** The grouping step for an action on a day not seen before: a new bar is opened and listed last. */
  lemma StepNewDay(actions: seq<UserAction>, a: UserAction, dayOf: string -> string,
                   grouped: map<string, Bucket>, order: seq<string>)
    requires Grouped(actions, dayOf, grouped, order) && Day(a, dayOf) !in grouped
    ensures Grouped(actions + [a], dayOf,
                    grouped[Day(a, dayOf) := Bump(EmptyBucket(Day(a, dayOf)), a.action)], order + [Day(a, dayOf)])
  {
    var date := Day(a, dayOf);
    var b := Bump(EmptyBucket(date), a.action);
    var g := grouped[date := b];
    DaysAppend(actions, a, dayOf);
    DayBucketUnseen(actions, dayOf, date);
    BarsAfterStep(actions, a, dayOf, grouped, g);
    assert date !in order;
    assert DistinctKeys(order + [date], Identity);
    assert forall i | 0 <= i < |order| :: order[i] in grouped;
    forall c
      ensures SumOf(Values(order + [date], g), c) == CountAction(actions + [a], CounterName(c))
    {
      NewDaySum(actions, a, dayOf, grouped, order, c);
    }
  }

  /** The grouping step for an action on a day already seen: its bar is counted up in place. */
  lemma StepKnownDay(actions: seq<UserAction>, a: UserAction, dayOf: string -> string,
                     grouped: map<string, Bucket>, order: seq<string>)
    requires Grouped(actions, dayOf, grouped, order) && Day(a, dayOf) in grouped
    ensures Grouped(actions + [a], dayOf,
                    grouped[Day(a, dayOf) := Bump(grouped[Day(a, dayOf)], a.action)], order)
  {
    var date := Day(a, dayOf);
    var g := grouped[date := Bump(grouped[date], a.action)];
    DaysAppend(actions, a, dayOf);
    BarsAfterStep(actions, a, dayOf, grouped, g);
    assert forall i | 0 <= i < |order| :: order[i] in grouped;
    forall c
      ensures SumOf(Values(order, g), c) == CountAction(actions + [a], CounterName(c))
    {
      KnownDaySum(actions, a, dayOf, grouped, order, c);
    }
  }

  /** Counting an action into a listed bar keeps the counter sums equal to the action counts. */
  lemma KnownDaySum(actions: seq<UserAction>, a: UserAction, dayOf: string -> string,
                    grouped: map<string, Bucket>, order: seq<string>, c: Counter)
    requires forall i | 0 <= i < |order| :: order[i] in grouped
    requires DistinctKeys(order, Identity) && Day(a, dayOf) in order && Day(a, dayOf) in grouped
    requires SumOf(Values(order, grouped), c) == CountAction(actions, CounterName(c))
    ensures SumOf(Values(order, grouped[Day(a, dayOf) := Bump(grouped[Day(a, dayOf)], a.action)]), c) ==
            CountAction(actions + [a], CounterName(c))
  {
    var date := Day(a, dayOf);
    SumOfReplace(order, grouped, date, Bump(grouped[date], a.action), c);
    CountActionAppend(actions, a, CounterName(c));
  }

  /**
   * The grouping pass: one bar per day, in the order the days first
   * occur, each bar counting the actions of its day.
   */
  method GroupByDay(actions: seq<UserAction>, dayOf: string -> string)
    returns (grouped: map<string, Bucket>, order: seq<string>)
    ensures grouped.Keys == Days(actions, dayOf)
    ensures forall d | d in grouped :: grouped[d] == DayBucket(actions, dayOf, d)
    ensures DistinctKeys(order, Identity) && forall d :: d in order <==> d in grouped
    ensures order == DayOrder(actions, dayOf)
    ensures forall c :: SumOf(Values(order, grouped), c) == CountAction(actions, CounterName(c))
  {
    grouped, order := map[], [];
    for i := 0 to |actions|
      invariant Grouped(actions[..i], dayOf, grouped, order)
      invariant order == DayOrder(actions[..i], dayOf)
    {
      var a := actions[i];
      assert actions[..i + 1] == actions[..i] + [a];
      assert actions[..i + 1][..i] == actions[..i];
      var date := Day(a, dayOf);
      if date !in grouped {
        StepNewDay(actions[..i], a, dayOf, grouped, order);
        grouped := grouped[date := Bump(EmptyBucket(date), a.action)];
        order := order + [date];
      } else {
        StepKnownDay(actions[..i], a, dayOf, grouped, order);
        grouped := grouped[date := Bump(grouped[date], a.action)];
      }
    }
    assert actions[..|actions|] == actions;
  }

  /** Bars in strictly ascending date order. */
  predicate SortedByDate(bars: seq<Bucket>)
  {
    forall i, j | 0 <= i < j < |bars| :: Below(bars[i].date, bars[j].date)
  }

  /** One insertion step of the sort by `a.date.localeCompare(b.date)`. */
  function InsertByDate(bars: seq<Bucket>, b: Bucket): seq<Bucket>
  {
    if bars == [] then [b]
    else if Below(b.date, bars[0].date) then [b] + bars
    else [bars[0]] + InsertByDate(bars[1..], b)
  }

  /**
   * Inserting a bar with a date not yet listed keeps the bars sorted,
   * adds exactly that bar, and adds its counts to every sum.
   */
  lemma {:induction false} InsertSorted(bars: seq<Bucket>, b: Bucket)
    requires SortedByDate(bars)
    requires forall i | 0 <= i < |bars| :: bars[i].date != b.date
    ensures SortedByDate(InsertByDate(bars, b))
    ensures multiset(InsertByDate(bars, b)) == multiset(bars) + multiset{b}
    ensures forall c :: SumOf(InsertByDate(bars, b), c) == SumOf(bars, c) + Get(b, c)
  {
    if bars == [] {
    } else if Below(b.date, bars[0].date) {
      var r := [b] + bars;
      forall i, j | 0 <= i < j < |r| ensures Below(r[i].date, r[j].date) {
        if i == 0 && j > 1 {
          BelowTransitive(b.date, bars[0].date, bars[j - 1].date);
        }
      }
      forall c ensures SumOf(r, c) == SumOf(bars, c) + Get(b, c) {
        SumOfCons(b, bars, c);
      }
    } else {
      var rest := InsertByDate(bars[1..], b);
      InsertSorted(bars[1..], b);
      BelowTotal(b.date, bars[0].date);
      var r := [bars[0]] + rest;
      assert bars == [bars[0]] + bars[1..];
      forall i, j | 0 <= i < j < |r| ensures Below(r[i].date, r[j].date) {
        if i == 0 {
          assert r[j] in multiset(rest);
          assert r[j] == b || r[j] in bars[1..];
        }
      }
      forall c ensures SumOf(r, c) == SumOf(bars, c) + Get(b, c) {
        SumOfCons(bars[0], rest, c);
        SumOfCons(bars[0], bars[1..], c);
      }
    }
  }

  lemma {:induction false} SumOfCons(b: Bucket, bars: seq<Bucket>, c: Counter)
    ensures SumOf([b] + bars, c) == Get(b, c) + SumOf(bars, c)
  {
    if bars != [] {
      var init := bars[..|bars| - 1];
      assert ([b] + bars)[..|bars|] == [b] + init;
      SumOfCons(b, init, c);
    }
  }

  /**
   * The sort pass: the bars taken in listing order and inserted by date,
   * which leaves them in strictly ascending date order.
   */
  method SortByDate(grouped: map<string, Bucket>, order: seq<string>) returns (chart: seq<Bucket>)
    requires DistinctKeys(order, Identity) && forall d :: d in order <==> d in grouped
    requires forall d | d in grouped :: grouped[d].date == d
    ensures SortedByDate(chart)
    ensures multiset(chart) == multiset(Values(order, grouped))
    ensures forall c :: SumOf(chart, c) == SumOf(Values(order, grouped), c)
  {
    assert forall i | 0 <= i < |order| :: order[i] in grouped;
    chart := [];
    for j := 0 to |order|
      invariant SortedByDate(chart)
      invariant multiset(chart) == multiset(Values(order[..j], grouped))
      invariant forall c :: SumOf(chart, c) == SumOf(Values(order[..j], grouped), c)
    {
      assert order[..j + 1] == order[..j] + [order[j]];
      NotListedBefore(order, j);
      SortStep(grouped, order[..j], order[j], chart);
      chart := InsertByDate(chart, grouped[order[j]]);
    }
    assert order[..|order|] == order;
  }

  /** In a list without repeats, no entry occurs before its own position. */
  lemma NotListedBefore(order: seq<string>, j: nat)
    requires DistinctKeys(order, Identity) && j < |order|
    ensures order[j] !in order[..j]
  {
    assert forall i | 0 <= i < j :: Identity(order[i]) != Identity(order[j]);
  }

  /** One insertion of the sort pass keeps its invariant. */
  lemma SortStep(grouped: map<string, Bucket>, prefix: seq<string>, d: string, chart: seq<Bucket>)
    requires forall i | 0 <= i < |prefix| :: prefix[i] in grouped
    requires d in grouped && d !in prefix
    requires forall d | d in grouped :: grouped[d].date == d
    requires SortedByDate(chart)
    requires multiset(chart) == multiset(Values(prefix, grouped))
    requires forall c :: SumOf(chart, c) == SumOf(Values(prefix, grouped), c)
    ensures SortedByDate(InsertByDate(chart, grouped[d]))
    ensures multiset(InsertByDate(chart, grouped[d])) == multiset(Values(prefix + [d], grouped))
    ensures forall c :: SumOf(InsertByDate(chart, grouped[d]), c) == SumOf(Values(prefix + [d], grouped), c)
  {
    ValuesAppend(prefix, d, grouped);
    var b := grouped[d];
    var values := Values(prefix, grouped);
    forall i | 0 <= i < |chart|
      ensures chart[i].date != b.date
    {
      assert chart[i] in values by {
        assert chart[i] in multiset(values);
      }
      ListedDate(prefix, grouped, chart[i]);
    }
    InsertSorted(chart, b);
    forall c ensures SumOf(values + [b], c) == SumOf(values, c) + Get(b, c) {
      SumOfAppend(values, b, c);
    }
  }

  /** Every bar taken from the listing is dated with a listed day. */
  lemma ListedDate(order: seq<string>, grouped: map<string, Bucket>, x: Bucket)
    requires forall i | 0 <= i < |order| :: order[i] in grouped
    requires forall d | d in grouped :: grouped[d].date == d
    requires x in Values(order, grouped)
    ensures x.date in order
  {
    var k :| 0 <= k < |order| && Values(order, grouped)[k] == x;
    assert grouped[order[k]] == x;
  }

  /**
   * `chartData`: one bar per day with actions, in ascending date order,
   * each bar counting that day's actions, so that each counter summed over
   * the chart equals the number of actions it names.
   */
  method ChartData(actions: seq<UserAction>, dayOf: string -> string) returns (chart: seq<Bucket>)
    ensures SortedByDate(chart)
    ensures forall i | 0 <= i < |chart| ::
              chart[i].date in Days(actions, dayOf) && chart[i] == DayBucket(actions, dayOf, chart[i].date)
    ensures forall d | d in Days(actions, dayOf) :: exists i | 0 <= i < |chart| :: chart[i].date == d
    ensures forall c :: SumOf(chart, c) == CountAction(actions, CounterName(c))
  {
    var grouped, order := GroupByDay(actions, dayOf);
    chart := SortByDate(grouped, order);
    SortedBarsAreDays(actions, dayOf, grouped, order, chart);
  }

  /** Any reordering of the grouped bars holds one bar per day with actions, each that day's bar. */
  lemma SortedBarsAreDays(actions: seq<UserAction>, dayOf: string -> string,
                          grouped: map<string, Bucket>, order: seq<string>, chart: seq<Bucket>)
    requires grouped.Keys == Days(actions, dayOf)
    requires forall d | d in grouped :: grouped[d] == DayBucket(actions, dayOf, d)
    requires forall d :: d in order <==> d in grouped
    requires forall i | 0 <= i < |order| :: order[i] in grouped
    requires multiset(chart) == multiset(Values(order, grouped))
    ensures forall i | 0 <= i < |chart| ::
              chart[i].date in Days(actions, dayOf) && chart[i] == DayBucket(actions, dayOf, chart[i].date)
    ensures forall d | d in Days(actions, dayOf) :: exists i | 0 <= i < |chart| :: chart[i].date == d
  {
    var values := Values(order, grouped);
    forall i | 0 <= i < |chart|
      ensures chart[i].date in Days(actions, dayOf) && chart[i] == DayBucket(actions, dayOf, chart[i].date)
    {
      assert chart[i] in multiset(values);
      var k :| 0 <= k < |values| && values[k] == chart[i];
      assert order[k] in grouped;
    }
    forall d | d in Days(actions, dayOf)
      ensures exists i | 0 <= i < |chart| :: chart[i].date == d
    {
      var k :| 0 <= k < |order| && order[k] == d;
      assert values[k] in multiset(chart);
      var i :| 0 <= i < |chart| && chart[i] == values[k];
    }
  }

  /** A day without actions has an empty bar. */
  lemma {:induction false} DayBucketUnseen(actions: seq<UserAction>, dayOf: string -> string, d: string)
    requires d !in Days(actions, dayOf)
    ensures DayBucket(actions, dayOf, d) == EmptyBucket(d)
  {
    if actions != [] {
      var init := actions[..|actions| - 1];
      assert Day(actions[|actions| - 1], dayOf) in Days(actions, dayOf);
      assert Days(init, dayOf) <= Days(actions, dayOf) by {
        forall x | x in Days(init, dayOf) ensures x in Days(actions, dayOf) {
          var j :| 0 <= j < |init| && Day(init[j], dayOf) == x;
          assert init[j] == actions[j];
        }
      }
      DayBucketUnseen(init, dayOf, d);
    }
  }
  /** The polling period, in milliseconds. */
  const PollMs := 45000

  class UserCard {
    /** The `actions` state: whatever the last successful normalisation produced. */
    var actions: Listing<UserAction>

    constructor ()
      ensures actions == List([])
    {
      actions := List([]);
    }

    /**
     * One poll. A reply that cannot be read leaves the actions as they
     * were; any other reply replaces them, whatever its status.
     */
    method Poll(resp: Response<UserAction>)
      modifies this
      ensures NormaliseUsers(resp).None? ==> actions == old(actions)
      ensures NormaliseUsers(resp).Some? ==> actions == NormaliseUsers(resp).value
    {
      var next := NormaliseUsers(resp);
      if next.Some? {
        actions := next.value;
      }
    }
  }
}
