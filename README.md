# NFS-DWDM-EMS dashboard: reconciliation and summaries

The NFS-DWDM-EMS web dashboard polls an element-management backend for DWDM
nodes, alarms, inventory, configuration backups, performance samples and
user actions, and shows each list in a card. This project models two parts
of that dashboard:

- The **diff-and-promote reconciliation** that five cards write out by hand.
  On each poll (nodes, alarms) or prop update (configurations, performance,
  inventory), a card does four things:
  - compares the new snapshot with the previous one;
  - highlights the records that are new or changed;
  - pins those records to the top of the table;
  - in three cards, arms a timer that clears the highlight.
- The **summary aggregations**:
  - the severity chips of the alarm card;
  - the compliance and status chips of the configuration card;
  - the quick counters and per-day chart of the user card;
  - the "Nodes Up / Nodes Down / Total Alarms / Active Users / Total
    Inventory" row of the landing page and of the dashboard.

Layout, one module per file:

| file | module | what it holds |
|---|---|---|
| `collections.dfy` | `Collections` | `Option`, key lookups, `find`, `filter` by key, `new Map(...)`, counting |
| `text.dfy` | `Text` | ASCII `toUpperCase`, number-to-text, the injectivity of `${n}-…` keys, string order |
| `fetch.dfy` | `Fetch` | the `getData` reply normalisation, and the user card's own normalisation |
| `pinning.dfy` | `Pinning` | one cycle of diff-and-promote, stated once for all four pinning cards; the loop method `Scan`; the lemmas about a cycle |
| `nodes.dfy` | `Nodes` | `NodesCard` |
| `alarms.dfy` | `Alarms` | `AlarmCard` and the severity fold |
| `configs.dfy` | `Configs` | `ConfigCard` and the compliance and status folds |
| `performance.dfy` | `Performance` | `PerformanceCard` |
| `inventory.dfy` | `Inventory` | `InventoryCard`, which partitions by node and does not pin |
| `users.dfy` | `Users` | the quick counters, `activeUsers` and `chartData` of `UserCard` |
| `summary.dfy` | `Summary` | the landing page and the dashboard: node stats, latest action per user, totals, `loading` |

Each card is a class. Its fields are the card's refs and state:
- `prev`, the previous snapshot;
- `pinned`, the pinned records;
- `highlighted`, the highlight set;
- `display`, `ordered`, `data` or `items`, the displayed list;
- `timerArmed`, whether a highlight timer is pending.

Its methods are the effects:
- `Reconcile`/`Poll` for a poll;
- `Update` for a prop change;
- `ExpireHighlight` for the timer firing.

Each method's `ensures` ties the new state to the specification functions
`Marked`, `Batch`, `Promote` and `Arrange`. The lemmas in `Pinning` prove
what those functions guarantee. For example:
- every changed record ends up pinned;
- the pinned list only grows;
- the display holds every unpinned record exactly once;
- a pinned record is never refreshed.

Record equality, which the source computes by comparing `JSON.stringify`
outputs, is datatype equality. A field that the source may omit is an
`Option`.

## Model

| member | source | states |
|---|---|---|
| Fetch.GetData | ems/app/components/NodesCard.tsx:6-17 | An array body is returned as is. A body whose `data` field is an array yields that array. A transport error, a failed status, an unparsable or `null` body, and a falsy or missing `data` field all yield `[]`. A truthy non-array `data` value is passed through (`NotAList`, keeping its `.length`, such as a string's character count), and only that input does so. The alarm card, the landing page (`page.tsx:14-25`) and the dashboard (`Dashboard.tsx:15-26`) carry the same helper word for word. |
| Fetch.NormaliseUsers | ems/app/components/UserCard.tsx:43-52 | The status is not checked. `json.data ?? []` maps only a missing or `null` field to `[]`. A transport error or a body that `res.json()` cannot read, or a `null` body (whose `.data` throws), leaves the state as it was (`None`). |
| Fetch.UsersIgnoreStatus | ems/app/components/UserCard.tsx:45-48 | For the same failed reply with an array body, `getData` yields `[]` and the user card keeps the array. |
| Collections.IndexByLastWins | ems/app/components/PerformanceCard.tsx:64 | `new Map(list.map(p => [key(p), p]))` has exactly the keys of the list, and maps each key to its last record with that key. |
| Pinning.Stamped | ems/app/components/AlarmCard.tsx:71-72 | `map` keeps the length and applies the function at every index. |
| Pinning.Scan | ems/app/components/NodesCard.tsx:30-42 | The `forEach` loop builds exactly the highlight set `Marked` and the new-or-changed batch `Batch` of the cycle. |
| Pinning.MarkedMember | ems/app/components/NodesCard.tsx:33-36 | A key is highlighted if and only if some snapshot record carrying it is changed. |
| Pinning.BatchMember | ems/app/components/NodesCard.tsx:38-40 | A record is in the batch if and only if it is (the stamp of) a changed snapshot record whose key is not yet pinned. |
| Pinning.BatchIsFresh | ems/app/components/NodesCard.tsx:38-40 | No key in the batch is already pinned. |
| Pinning.NothingUnpinned | ems/app/components/NodesCard.tsx:49-65 | Promotion yields the batch followed by the whole old pinned list, in order. The pinned list only grows, and the "removed from top" list is always empty. |
| Pinning.ChangedArePinned | ems/app/components/NodesCard.tsx:33-57 | Every record flagged changed in a cycle has its key pinned after it. |
| Pinning.ArrangeCount | ems/app/components/NodesCard.tsx:67-72 | The display holds each pinned record as often as the pinned list does. It holds each record whose key is unpinned as often as the snapshot does, and a snapshot record whose key is pinned not at all. |
| Pinning.UnpinnedShownOnce | ems/app/components/NodesCard.tsx:67-72 | When snapshot keys are distinct, every snapshot record whose key is unpinned is displayed exactly once. |
| Pinning.StalePinned | ems/app/components/NodesCard.tsx:38-72 | Under a key that was already pinned, the display shows only the record captured when it was pinned. A newer version is highlighted but not shown. |
| Pinning.BatchDistinct | ems/app/components/NodesCard.tsx:38-40 | When snapshot keys are distinct, the batch has distinct keys. |
| Pinning.PinnedStayDistinct | ems/app/components/NodesCard.tsx:52-57 | When snapshot keys are distinct and the old pinned keys are distinct, the new pinned list has no duplicate key. |
| Pinning.QuietCycle | ems/app/components/NodesCard.tsx:33-72 | A cycle with no change highlights nothing and pins nothing. With nothing pinned, the display is the snapshot itself, in its own order. |
| Pinning.EmptySnapshot | ems/app/components/NodesCard.tsx:28-76 | An empty snapshot empties the highlight set, keeps the pinned list, and displays exactly the pinned list. |
| Nodes.NodeUnchangedIff | ems/app/components/NodesCard.tsx:33-36 | A node is unchanged if and only if it is identical to the first previous node with its `id`. |
| Nodes.AfterEmptyPollAllChanged | ems/app/components/NodesCard.tsx:28-76 | After a poll that returned no nodes (including a failed fetch), the next poll highlights the id of every node it returns. |
| Nodes.HighlightsPinned | ems/app/components/NodesCard.tsx:33-57 | After a poll, every highlighted id belongs to a pinned node. |
| Nodes.NodesCard.constructor | ems/app/components/NodesCard.tsx:20-24 | All state starts empty and `loading` is true. |
| Nodes.NodesCard.Reconcile | ems/app/components/NodesCard.tsx:27-78 | After a poll: `highlighted` is this cycle's changed ids, and replaces the old set. `pinned` is the batch followed by the old pinned list. The display is the pinned nodes, then the unpinned fetched nodes. `prev` is the fetched list. `loading` is false. Every highlighted id stays pinned (`Valid`). |
| Nodes.NodesCard.Poll | ems/app/components/NodesCard.tsx:26-83 | A poll reconciles the `getData` result. A non-array value makes `forEach` throw before any state changes. |
| Alarms.WithId | ems/app/components/AlarmCard.tsx:35-42 | The pinned and displayed form of an alarm carries its derived id (`id`, else `${nodeId}-${timestamp}`). An alarm that already has an `id` is left as it is. |
| Alarms.IdlessAlarmAlwaysChanged | ems/app/components/AlarmCard.tsx:35-39 | An alarm without an `id` field never finds its predecessor, so every poll flags it. |
| Alarms.AlarmUnchangedIff | ems/app/components/AlarmCard.tsx:35-39 | An alarm with an `id` is unchanged if and only if it equals the first previous alarm with that `id`. |
| Alarms.HighlightsPinned | ems/app/components/AlarmCard.tsx:34-60 | After a poll, every highlighted derived id is the `id` of a pinned alarm. |
| Alarms.AlarmCard.constructor | ems/app/components/AlarmCard.tsx:20-24 | All state starts empty. |
| Alarms.AlarmCard.Reconcile | ems/app/components/AlarmCard.tsx:27-78 | The same cycle with derived ids. Pinned alarms carry their derived id, and so does every displayed alarm. `prev` is the raw fetched list. Every highlighted id is pinned. |
| Alarms.AlarmCard.Poll | ems/app/components/AlarmCard.tsx:26-83 | A poll reconciles the `getData` result. A non-array value changes nothing. |
| Alarms.AlarmCountsAreExact | ems/app/components/AlarmCard.tsx:86-97 | Each severity chip counts exactly the displayed alarms of its severity, ignoring case. The chips plus the alarms of missing or unknown severity add up to the number of alarms. |
| Alarms.AlarmCountsIgnoreCase | ems/app/components/AlarmCard.tsx:88 | Upper-casing every severity leaves the chips unchanged. |
| Configs.ConfigKeyIff | ems/app/components/ConfigCard.tsx:40-49 | The text key `${nodeId}-${backupTime}` and the field pair compared in the pinned lookups identify the same configurations. |
| Configs.ConfigChangedIff | ems/app/components/ConfigCard.tsx:39-45 | A configuration is unchanged if and only if the first previous configuration with its node id and backup time has the same status and compliance. Other fields are ignored. |
| Configs.HighlightsPinned | ems/app/components/ConfigCard.tsx:39-62 | After an update, every highlighted text key belongs to a configuration pinned by its field pair. |
| Configs.ConfigCard.constructor | ems/app/components/ConfigCard.tsx:26-31 | All state starts empty, and no timer is pending. |
| Configs.ConfigCard.Update | ems/app/components/ConfigCard.tsx:33-78 | The pending timer is always cancelled. An empty prop changes nothing else. A non-empty prop runs the cycle: highlighted keys, `pinned` grown by the batch, ordered list as pinned then the rest, `prev` replaced wholesale. It then arms a new timer. |
| Configs.ConfigCard.ExpireHighlight | ems/app/components/ConfigCard.tsx:76 | A pending timer clears the highlight and nothing else. |
| Configs.CountByExact | ems/app/components/ConfigCard.tsx:108-117 | A chip fold names exactly the values that occur, each with its number of occurrences. |
| Configs.CountBySum | ems/app/components/ConfigCard.tsx:108-117 | The values of a chip fold sum to the number of configurations folded. |
| Configs.ComplianceCounts | ems/app/components/ConfigCard.tsx:108-111 | `countCompliance`: each compliance value shown maps to its number of configurations, every value shown is present, and the counts sum to the number shown. |
| Configs.StatusCounts | ems/app/components/ConfigCard.tsx:113-117 | `countStatus`: the same for status. |
| Performance.UnchangedIffLastSample | ems/app/components/PerformanceCard.tsx:40-64 | A sample is unchanged if and only if the last previous sample of its node has the same latency, error rate and bandwidth use. The timestamp is ignored. |
| Performance.HighlightsPinned | ems/app/components/PerformanceCard.tsx:40-56 | After an update, every highlighted node has a pinned sample. |
| Performance.PerformanceCard.constructor | ems/app/components/PerformanceCard.tsx:28-33 | All state starts empty, and no timer is pending. |
| Performance.PerformanceCard.Update | ems/app/components/PerformanceCard.tsx:34-68 | An empty prop only cancels the timer. A non-empty one highlights the changed node ids, grows `pinned` by the batch, displays pinned then the unpinned samples, makes `prev` the last-sample-wins map, and arms the timer. Every highlighted node stays pinned. |
| Performance.PerformanceCard.ExpireHighlight | ems/app/components/PerformanceCard.tsx:66 | A pending timer clears the highlight and nothing else. |
| Inventory.RowKeyNode | ems/app/components/InventoryCard.tsx:24-25 | Two rows with the same row key belong to the same node. |
| Inventory.KeyCollision | ems/app/components/InventoryCard.tsx:24-42 | Two different rows can share a row key (rack "r-1", subrack "s" and rack "r", subrack "1-s"). The second is then flagged changed against the first. |
| Inventory.Detect | ems/app/components/InventoryCard.tsx:33-47 | The first loop collects exactly the changed row keys and the nodes those rows belong to. |
| Inventory.Partition | ems/app/components/InventoryCard.tsx:49-55 | The second loop splits the rows into those of changed nodes and the rest, each in input order. |
| Inventory.GroupMember | ems/app/components/InventoryCard.tsx:49-55 | A row is in the top group if and only if its node is among the changed nodes. |
| Inventory.GroupsPermute | ems/app/components/InventoryCard.tsx:49-57 | The two groups together are a permutation of the rows. |
| Inventory.HighlightedOnTop | ems/app/components/InventoryCard.tsx:30-57 | A row goes on top if and only if some changed row shares its node. Every highlighted row is on top. |
| Inventory.InventoryCard.constructor | ems/app/components/InventoryCard.tsx:19-21 | All state starts empty, and no timer is pending. |
| Inventory.InventoryCard.Update | ems/app/components/InventoryCard.tsx:27-64 | A missing or empty prop only cancels the timer. Otherwise: `highlighted` is the changed row keys, the items are the top group then the rest (nothing is pinned across updates), and `prev` maps each key to its last row. A timer is armed. |
| Inventory.InventoryCard.ExpireHighlight | ems/app/components/InventoryCard.tsx:61 | A pending timer clears the highlight and nothing else. |
| Users.LoginNamesMember | ems/app/components/UserCard.tsx:65-76 | A user counts as active if and only if they have a `login` action strictly later than 24 hours before now. |
| Users.ActiveUsersBound | ems/app/components/UserCard.tsx:68-76 | The number of active users is at most the number of logins. |
| Users.LoginNamesBound | ems/app/components/UserCard.tsx:70-74 | The set of login names within any window is no larger than the number of logins. |
| Users.Bump | ems/app/components/UserCard.tsx:110-111 | Counting an action raises the counter it names by one and leaves the date and every other counter alone. |
| Users.DayBucket | ems/app/components/UserCard.tsx:99-113 | A day's bar carries that day as its date. |
| Users.AsWrittenAgrees | ems/app/components/UserCard.tsx:110-111 | When no action is named `date`, the bar as the code builds it is the intended bar. |
| Users.DateActionBreaksBar | ems/app/components/UserCard.tsx:110-111 | One action named `date` destroys the date of its day's bar, where the intended bar stays empty. |
| Users.Values | ems/app/components/UserCard.tsx:115 | Listing the dictionary's values along a key order yields one bar per listed key, at the same position, and that bar is the key's entry. |
| Users.GroupByDay | ems/app/components/UserCard.tsx:97-113 | The `grouped` dictionary has exactly the days that have actions as keys, each mapped to that day's bar. Summing a counter over its values gives the count of that action. The keys are listed in the order their days first occur (`DayOrder`), which is the order `Object.values` follows for keys that are not integers. |
| Users.DayOrderFirstOccurrence | ems/app/components/UserCard.tsx:99-109 | The key order lists every day that has an action, each exactly once, and one day comes before another exactly when its first action comes earlier. |
| Users.InsertSorted | ems/app/components/UserCard.tsx:115 | Inserting a bar into a date-sorted list keeps it sorted, adds exactly that bar, and adds its counters to the sums. |
| Users.SortByDate | ems/app/components/UserCard.tsx:115 | Sorting by date yields a permutation of the bars, in strictly ascending date order, with the same counter sums. |
| Users.ChartData | ems/app/components/UserCard.tsx:78-116 | `chartData` has one bar per day with actions and no other bar, in ascending date order. Each bar counts that day's actions. Each counter summed over the chart equals the quick counter of that action (`failedLogins`, `configChanges`, `logouts`, and the login count). |
| Users.DayBucketUnseen | ems/app/components/UserCard.tsx:99-109 | A day without actions has an empty bar. |
| Users.UserCard.constructor | ems/app/components/UserCard.tsx:37 | The actions start empty. |
| Users.UserCard.Poll | ems/app/components/UserCard.tsx:43-60 | A reply that cannot be read leaves the actions as they were. Any other reply replaces them, whatever its status. |
| Summary.NodeStatsExact | ems/app/page.tsx:59-67 | `nodeStats` counts exactly the nodes whose status is "UP", and those whose status is "DOWN", ignoring case. Together they never exceed the number of nodes. The dashboard's fold (`Dashboard.tsx:72-79`) is the same. |
| Summary.LatestActions | ems/app/page.tsx:70-76 | The `forEach` pass builds the latest-action dictionary that `LatestOf` specifies. |
| Summary.LatestKeys | ems/app/page.tsx:70-76 | Every user who acted, and no one else, has an entry. |
| Summary.LatestIsFirstLatest | ems/app/page.tsx:72-76 | A user's entry comes from their latest action. When several actions share the latest time, it comes from the first of them. The dashboard builds the same dictionary (`Dashboard.tsx:84-89`). |
| Summary.ActiveFromLatest | ems/app/page.tsx:78 | The number of entries whose action is `login` is at most the number of entries. |
| Summary.ActiveUsersNow | ems/app/components/Dashboard.tsx:83-91 | "Active Users" is at most the number of distinct user names. |
| Summary.StatsOf | ems/app/page.tsx:59-84 | The summary crashes if and only if the node or the user value is not a list. Otherwise its counts are bounded as stated above. Each total is the length of its list; for a value that is not a list, it is that value's own `.length` (a string's character count), or `undefined` when it has none. |
| Summary.Page.constructor | ems/app/page.tsx:28-32 | All lists start empty, and `loading` is true. |
| Summary.Page.FetchAll | ems/app/page.tsx:36-49 | The four normalised replies are stored, and `loading` becomes false. |
| Summary.Page.Render | ems/app/page.tsx:56-94 | Nothing is rendered if and only if loading. Otherwise the render is the summary over the stored lists, which crashes when the node or user value is not a list. |
| Summary.Dashboard.constructor | ems/app/components/Dashboard.tsx:29-35 | All lists start empty, and `loading` is true. |
| Summary.Dashboard.FetchSummary | ems/app/components/Dashboard.tsx:38-47 | Nodes, users and alarms are replaced. The other lists are kept, and `loading` stays true. |
| Summary.Dashboard.FetchHeavy | ems/app/components/Dashboard.tsx:49-58 | Inventory, configurations and performance are replaced. The other lists are kept, and `loading` stays true. |
| Summary.Dashboard.Render | ems/app/components/Dashboard.tsx:69-152 | The statistics are computed before the `loading` test, and markup is produced only while loading. Since `loading` is never cleared, the summary is always shown, or the render crashes. |

## Behaviour worth knowing

The model follows the code, including these behaviours:
- **Empty snapshot.**
  - The configuration, performance and inventory cards return early on an
    empty list. They cancel the pending highlight timer first, so the
    current highlight then stays until the next non-empty update.
  - The nodes and alarms cards have no such guard. An empty list, which is
    also what any failed fetch yields, empties the highlight set and the
    previous snapshot. The next poll then highlights every record
    (`Pinning.EmptySnapshot`, `Nodes.AfterEmptyPollAllChanged`).
- **Failed fetches.** `getData` turns a failed fetch into `[]`, which is
  reconciled like any other list.
- **No eviction.** No card removes a pinned record. The pinned list only
  grows (`Pinning.NothingUnpinned`), and a pinned record stays on top even
  after it disappears from the backend.
- **Highlight expiry.** Only the configuration, performance and inventory
  cards clear their highlight on a timer. The nodes and alarms cards keep
  it until the next poll replaces it.
- **Compared fields.** The cards decide "changed" differently:
  - the nodes and alarms cards compare whole records;
  - the configuration card compares status and compliance;
  - the performance card compares latency, error rate and bandwidth use;
  - the inventory card compares rack, subrack, slot, port and firmware.

## Left out

- Network I/O, `fetch` and the proxy route (`ems/app/api/proxy/route.ts`)
  are not modelled. A poll receives its outcome as a `Fetch.Response`
  value.
- React scheduling (`useState`, `useRef`, `useEffect`, `setInterval`,
  `setTimeout`) and real time are not modelled.
  - A poll or prop change is an explicit method call, and a timer firing is
    `ExpireHighlight`.
  - The polling periods and delays are kept only as constants.
  - Overlapping asynchronous polls, whose results may land out of order,
    are not modelled.
- Date parsing is abstracted into parameters. `timeOf` stands for
  `new Date(t).getTime()` and `dayOf` for the date part of
  `toISOString()`, and `now` is passed in. Invalid timestamps are not
  modelled: `NaN` comparisons, and `toISOString` throwing.
- Performance metrics are modelled as `real`. JSON numbers are finite, and
  the card only compares them for equality. Floating-point rounding plays
  no part.
- The `nodeId` of configurations, performance samples and inventory rows
  is modelled as an integer. A fractional or non-numeric `nodeId`, which a
  JavaScript `number` allows, is not modelled. Node ids and the alarms' `id` and `nodeId` are
  text.
- `toUpperCase` is modelled on ASCII letters only.
- `JSON.stringify` equality is modelled as structural equality of records.
  Two records with the same fields in a different key order compare
  unequal in the source and equal here.
- `Users.Bump`, `Configs.CountBy` and `Summary.LatestOf` treat their
  dictionaries as plain maps. In JavaScript, keys inherited from
  `Object.prototype` behave differently:
  - an action named `toString`, `constructor` and so on passes the `in`
    test of `chartData` and adds a junk field to its bar; the model drops
    such an action;
  - a user named `__proto__`, or a compliance or status value with such a
    name, reads an inherited value.
- The order of `Object.entries` when rendering the chips is not modelled,
  and neither is the order of `Object.values` on keys that look like
  integers. The model keeps insertion order, which is what the dates of
  `chartData` get, since those are not integers.
- `localeCompare` is modelled as lexicographic order of the code points.
  The two agree on `YYYY-MM-DD` dates.
- `Users.CountAction` is the quick counter over a list. When `actions` is
  not a list (`NotAList`), the user card's render throws, and that is not
  modelled.
- A duplicate React key is not modelled: two inventory rows sharing a row
  key (`Inventory.KeyCollision`), or a nodes snapshot with repeated ids.
- `page.tsx` renders `PerformanceCard` and `InventoryCard` without their
  props. `PerformanceCard` then reads `.length` of `undefined` and throws,
  which is not modelled. `InventoryCard.Update` takes an `Option` to cover
  the missing prop, and its guard handles that case.
- The dashboard passes props to `NodesCard`, `AlarmCard` and `UserCard`
  that those cards ignore. The values of those props are not modelled.
- The configuration and performance cards receive their lists from the
  dashboard's `getData`. When that yields a non-list value, the card's
  `.length` test behaves differently. The model types those props as
  lists.
- The unused `getData` helpers of `ConfigCard.tsx` and
  `PerformanceCard.tsx` are not modelled, and neither is their `Date.now`
  cache-busting.
- Rendering is not modelled: tables, colour helpers, styles, charts
  (`UserChart.tsx`, `PerformanceChart.tsx`) and console logging.
- The layout, header, modal, side-bar, context-provider and login-page
  files are not part of this model. They hold UI state, navigation and
  authentication, not the dashboard's data handling.

## Findings

| source | as written | input that shows it | evidently intended | confidence | as-written member | corrected member |
|---|---|---|---|---|---|---|
| ems/app/components/UserCard.tsx:110-111 | `a.action in grouped[date]` also accepts the bar's own `date` field. `++` on it turns the bar's date into `NaN`, so the chart shows a `NaN` day. With a second day present, the `localeCompare` sort may also throw, depending on whether the sort passes the broken bar as the receiver of `localeCompare`. | one user action whose `action` is `"date"` | count only `login`, `failedLogin`, `configChange` and `logout`, and leave the date alone | not executed | Users.DateActionBreaksBar | Users.ChartData |
