/**
 * The summary row shown by the landing page and by the dashboard: nodes
 * up and down, total alarms, active users and total inventory, computed
 * from the lists each of them polls.
 */
module Summary {
  import opened Collections
  import opened Text
  import opened Fetch
  import opened Nodes
  import opened Alarms
  import opened Inventory
  import opened Users
  import opened Configs
  import opened Performance

  // ---------------------------------------------------------------------
  // Node statistics

  datatype NodeStats = NodeStats(up: nat, down: nat)

  /** `node.status?.toUpperCase() === "UP"`. */
  predicate IsUp(n: Node)
  {
    n.status.Some? && ToUpper(n.status.value) == "UP"
  }

  /** `node.status?.toUpperCase() === "DOWN"`. */
  predicate IsDown(n: Node)
  {
    n.status.Some? && ToUpper(n.status.value) == "DOWN"
  }

  /** One step of the `reduce`. */
  function TallyNode(acc: NodeStats, n: Node): NodeStats
  {
    if IsUp(n) then acc.(up := acc.up + 1)
    else if IsDown(n) then acc.(down := acc.down + 1)
    else acc
  }

  /** `nodeStats`: a left fold over the node list. */
  function CountNodes(nodes: seq<Node>): NodeStats
  {
    if nodes == [] then NodeStats(0, 0)
    else TallyNode(CountNodes(nodes[..|nodes| - 1]), nodes[|nodes| - 1])
  }

  /**
   * The fold counts exactly the nodes whose status is "UP", and those
   * whose status is "DOWN", ignoring case; a node with another or no
   * status counts as neither, so the two never add up to more than the
   * number of nodes.
   */
  lemma {:induction false} NodeStatsExact(nodes: seq<Node>)
    ensures CountNodes(nodes) == NodeStats(CountWhere(nodes, IsUp), CountWhere(nodes, IsDown))
    ensures CountNodes(nodes).up + CountNodes(nodes).down <= |nodes|
  {
    if nodes != [] {
      var init := nodes[..|nodes| - 1];
      var n := nodes[|nodes| - 1];
      NodeStatsExact(init);
      assert nodes == init + [n];
      CountWhereSnoc(init, n, IsUp);
      CountWhereSnoc(init, n, IsDown);
      assert !(IsUp(n) && IsDown(n));
    }
  }

  // ---------------------------------------------------------------------
  // Latest action per user

  datatype Latest = Latest(action: string, timestamp: string)

  /**
   * The `latestUserAction` dictionary after the `forEach` pass: an entry
   * is replaced only by a strictly later one.
   */
  function LatestOf(users: seq<UserAction>, timeOf: string -> int): map<string, Latest>
  {
    if users == [] then map[]
    else
      var m := LatestOf(users[..|users| - 1], timeOf);
      var u := users[|users| - 1];
      if u.username !in m || timeOf(u.timestamp) > timeOf(m[u.username].timestamp)
      then m[u.username := Latest(u.action, u.timestamp)]
      else m
  }

  /** The `forEach` pass that builds the dictionary in place. */
  method LatestActions(users: seq<UserAction>, timeOf: string -> int) returns (latest: map<string, Latest>)
    ensures latest == LatestOf(users, timeOf)
  {
    latest := map[];
    for i := 0 to |users|
      invariant latest == LatestOf(users[..i], timeOf)
    {
      assert users[..i + 1][..i] == users[..i];
      var u := users[i];
      if u.username !in latest || timeOf(u.timestamp) > timeOf(latest[u.username].timestamp) {
        latest := latest[u.username := Latest(u.action, u.timestamp)];
      }
    }
    assert users[..|users|] == users;
  }

  /** Each user who acted, and no one else, has an entry. */
  lemma {:induction false} LatestKeys(users: seq<UserAction>, timeOf: string -> int)
    ensures LatestOf(users, timeOf).Keys == set i | 0 <= i < |users| :: users[i].username
  {
    if users != [] {
      var init := users[..|users| - 1];
      LatestKeys(init, timeOf);
      assert forall j | 0 <= j < |init| :: init[j] == users[j];
      var names := set i | 0 <= i < |users| :: users[i].username;
      var initNames := set i | 0 <= i < |init| :: init[i].username;
      assert names == initNames + {users[|users| - 1].username} by {
        forall x | x in names ensures x in initNames + {users[|users| - 1].username} {
          var i :| 0 <= i < |users| && users[i].username == x;
          if i < |init| {
            assert init[i].username == x;
          }
        }
      }
    }
  }

  /** The action `users[i]` is at least as late as every action of its user, and strictly later than those before it. */
  ghost predicate FirstLatest(users: seq<UserAction>, timeOf: string -> int, i: int)
    requires 0 <= i < |users|
  {
    && (forall j | 0 <= j < |users| && users[j].username == users[i].username ::
          timeOf(users[j].timestamp) <= timeOf(users[i].timestamp))
    && (forall j | 0 <= j < i && users[j].username == users[i].username ::
          timeOf(users[j].timestamp) < timeOf(users[i].timestamp))
  }

  /** An action stays first-latest when the action appended after it is no later, or is another user's. */
  lemma FirstLatestKept(users: seq<UserAction>, timeOf: string -> int, i: int)
    requires 0 <= i < |users| - 1
    requires FirstLatest(users[..|users| - 1], timeOf, i)
    requires users[|users| - 1].username == users[i].username ==>
             timeOf(users[|users| - 1].timestamp) <= timeOf(users[i].timestamp)
    ensures FirstLatest(users, timeOf, i)
  {
    assert forall j | 0 <= j < |users| - 1 :: users[..|users| - 1][j] == users[j];
  }

  /** The last action is first-latest when it is strictly later than every earlier action of its user. */
  lemma FirstLatestLast(users: seq<UserAction>, timeOf: string -> int)
    requires users != []
    requires forall j | 0 <= j < |users| - 1 && users[j].username == users[|users| - 1].username ::
               timeOf(users[j].timestamp) < timeOf(users[|users| - 1].timestamp)
    ensures FirstLatest(users, timeOf, |users| - 1)
  {
  }

  /**
   * The entry of each user is taken from that user's latest action, the
   * first one when several share the latest time.
   */
  lemma {:induction false} LatestIsFirstLatest(users: seq<UserAction>, timeOf: string -> int, name: string)
    requires name in LatestOf(users, timeOf)
    ensures exists i | 0 <= i < |users| ::
              && users[i].username == name
              && LatestOf(users, timeOf)[name] == Latest(users[i].action, users[i].timestamp)
              && FirstLatest(users, timeOf, i)
  {
    var init := users[..|users| - 1];
    var u := users[|users| - 1];
    var last := |users| - 1;
    var m := LatestOf(init, timeOf);
    var L := LatestOf(users, timeOf);
    assert forall j | 0 <= j < |init| :: init[j] == users[j];
    if name in m {
      LatestIsFirstLatest(init, timeOf, name);
      var i0 :| 0 <= i0 < |init| && init[i0].username == name &&
                m[name] == Latest(init[i0].action, init[i0].timestamp) && FirstLatest(init, timeOf, i0);
      if u.username == name && timeOf(u.timestamp) > timeOf(m[name].timestamp) {
        FirstLatestLast(users, timeOf);
        assert L[name] == Latest(users[last].action, users[last].timestamp);
      } else {
        FirstLatestKept(users, timeOf, i0);
        assert L[name] == Latest(users[i0].action, users[i0].timestamp);
      }
    } else {
      LatestKeys(init, timeOf);
      assert u.username == name;
      forall j | 0 <= j < |init| ensures init[j].username != name {
        assert init[j].username in m;
      }
      FirstLatestLast(users, timeOf);
      assert L[name] == Latest(users[last].action, users[last].timestamp);
    }
  }

  /** `Object.values(latest).filter(u => u.action === "login").length`. */
  function ActiveFromLatest(latest: map<string, Latest>): (n: nat)
    ensures n <= |latest.Keys|
  {
    var active := set u | u in latest && latest[u].action == "login";
    assert latest.Keys == active + (latest.Keys - active);
    |active|
  }

  /** The page's "Active Users": the users whose latest action is a login. */
  function ActiveUsersNow(users: seq<UserAction>, timeOf: string -> int): (n: nat)
    ensures n <= |set i | 0 <= i < |users| :: users[i].username|
  {
    var latest := LatestOf(users, timeOf);
    var names := set i | 0 <= i < |users| :: users[i].username;
    LatestKeys(users, timeOf);
    ActiveFromLatest(latest)
  }

  // ---------------------------------------------------------------------
  // The two views

  /** `list.length`, also read off a value that is not a list (`undefined` is `None`). */
  function Length<T>(l: Listing<T>): Option<nat>
  {
    match l
    case List(items) => Some(|items|)
    case NotAList(length) => length
  }

  datatype Stats = Stats(nodes: NodeStats, totalAlarms: Option<nat>, activeUsers: nat, totalInventory: Option<nat>)

  /** What a render produces: nothing, a render error, or the summary cards. */
  datatype View = Blank | Crash | Cards(stats: Stats)

  /**
   * The statistics over the current lists; `reduce` on the node list and
   * `forEach` on the user list throw when those are not lists.
   */
  function StatsOf(nodes: Listing<Node>, users: Listing<UserAction>, inventory: Listing<Row>,
                   alarms: Listing<Alarm>, timeOf: string -> int): (v: View)
    ensures v.Crash? <==> nodes.NotAList? || users.NotAList?
    ensures v.Cards? ==> v.stats.nodes.up + v.stats.nodes.down <= |nodes.items|
    ensures v.Cards? ==> v.stats.activeUsers <= |set i | 0 <= i < |users.items| :: users.items[i].username|
    ensures v.Cards? && alarms.List? ==> v.stats.totalAlarms == Some(|alarms.items|)
    ensures v.Cards? && alarms.NotAList? ==> v.stats.totalAlarms == alarms.length
    ensures v.Cards? && inventory.List? ==> v.stats.totalInventory == Some(|inventory.items|)
    ensures v.Cards? && inventory.NotAList? ==> v.stats.totalInventory == inventory.length
  {
    if nodes.NotAList? || users.NotAList? then Crash
    else
      NodeStatsExact(nodes.items);
      Cards(Stats(CountNodes(nodes.items), Length(alarms), ActiveUsersNow(users.items, timeOf), Length(inventory)))
  }

  /** The polling period of the landing page, in milliseconds. */
  const PagePollMs := 2000

  /** The landing page. */
  class Page {
    var nodes: Listing<Node>
    var users: Listing<UserAction>
    var inventory: Listing<Row>
    var alarms: Listing<Alarm>
    var loading: bool

    constructor ()
      ensures nodes == List([]) && users == List([]) && inventory == List([]) && alarms == List([])
      ensures loading
    {
      nodes, users, inventory, alarms := List([]), List([]), List([]), List([]);
      loading := true;
    }

    /** One completed `fetchAll`: the four normalised replies are stored and loading ends. */
    method FetchAll(rn: Response<Node>, ru: Response<UserAction>, ri: Response<Row>, ra: Response<Alarm>)
      modifies this
      ensures nodes == GetData(rn) && users == GetData(ru)
      ensures inventory == GetData(ri) && alarms == GetData(ra)
      ensures !loading
    {
      nodes := GetData(rn);
      users := GetData(ru);
      inventory := GetData(ri);
      alarms := GetData(ra);
      loading := false;
    }

    /** The page renders nothing until the first fetch completes. */
    function Render(timeOf: string -> int): (v: View)
      reads this
      ensures loading <==> v.Blank?
      ensures !loading ==> v == StatsOf(nodes, users, inventory, alarms, timeOf)
    {
      if loading then Blank else StatsOf(nodes, users, inventory, alarms, timeOf)
    }
  }

  /** The polling period of the dashboard, in milliseconds, and the delay of its second batch. */
  const DashboardPollMs := 45000
  const HeavyDelayMs := 1000

  /** The dashboard. Its `loading` flag is never cleared. */
  class Dashboard {
    var nodes: Listing<Node>
    var users: Listing<UserAction>
    var alarms: Listing<Alarm>
    var inventory: Listing<Row>
    var configs: Listing<Config>
    var performance: Listing<Sample>
    var loading: bool

    ghost predicate Valid()
      reads this
    {
      loading
    }

    constructor ()
      ensures Valid()
      ensures nodes == List([]) && users == List([]) && alarms == List([])
      ensures inventory == List([]) && configs == List([]) && performance == List([])
    {
      nodes, users, alarms := List([]), List([]), List([]);
      inventory, configs, performance := List([]), List([]), List([]);
      loading := true;
    }

    /** `fetchSummary`: nodes, users and alarms. */
    method FetchSummary(rn: Response<Node>, ru: Response<UserAction>, ra: Response<Alarm>)
      requires Valid()
      modifies this
      ensures Valid()
      ensures nodes == GetData(rn) && users == GetData(ru) && alarms == GetData(ra)
      ensures inventory == old(inventory) && configs == old(configs) && performance == old(performance)
    {
      nodes := GetData(rn);
      users := GetData(ru);
      alarms := GetData(ra);
    }

    /** `fetchHeavy`, run `HeavyDelayMs` after each `fetchSummary`: inventory, configurations and performance. */
    method FetchHeavy(ri: Response<Row>, rc: Response<Config>, rp: Response<Sample>)
      requires Valid()
      modifies this
      ensures Valid()
      ensures inventory == GetData(ri) && configs == GetData(rc) && performance == GetData(rp)
      ensures nodes == old(nodes) && users == old(users) && alarms == old(alarms)
    {
      inventory := GetData(ri);
      configs := GetData(rc);
      performance := GetData(rp);
    }

    /**
     * The statistics are computed before the `loading` test, and markup is
     * produced only while loading. Nothing clears `loading` (see `Valid`),
     * so the summary is always shown, unless the node or user list is not
     * a list.
     */
    function Render(timeOf: string -> int): (v: View)
      reads this
      ensures loading ==> v == StatsOf(nodes, users, inventory, alarms, timeOf) && !v.Blank?
      ensures !loading ==> v.Blank? || v.Crash?
    {
      var stats := StatsOf(nodes, users, inventory, alarms, timeOf);
      if stats.Crash? then Crash else if loading then stats else Blank
    }
  }
}
