# Kudos point engine — a Dafny model

This project models the point engine of the Hacker Dojo kudos service. Members
give each other points ("kudos") out of a monthly budget of
`MONTHLY_POINTS = 10`. Each member has a `Profile` ledger that counts the
budget left, the points given and the points received, both this month and in
total. Every award is appended to a log of `Kudos` records. A monthly sweep
resets the budgets. Two leaderboards rank members by this month's counters. A
relationship graph adds up the award log per directed (giver, receiver) pair.

All of it is modelled as pure functions over immutable data:

- a `Store`: a map from member to `Profile`, plus the order in which the
  datastore lists profiles;
- an award log, `seq<Kudos>`.

Modules follow the handlers and models of `main.py`:

| module | file | models |
|---|---|---|
| `Profiles` | profiles.dfy | `Profile`, its defaults, `refresh`, `get_by_user`, the store |
| `Awards` | awards.dfy | `Kudos`, `hearts`, sets and sums derived from the award log |
| `Transfers` | transfers.dfy | the transfer in `MainHandler.post` |
| `Sweep` | sweep.dfy | `RefreshHandler.post` |
| `Leaderboards` | leaderboards.dfy | `top_receivers_this_month`, `top_givers_this_month` |
| `Display` | display.dfy | the budget arithmetic of `MainHandler.get` |
| `Graph` | graph.dfy | `GraphHandler.get` |
| `Engine` | engine.dfy | page views, kudos requests and sweeps together, run from an empty store |
| `Wrappers` | wrappers.dfy | `Option` and `Result` |

Modelling choices:

- Members are opaque strings. The recipient's `'@hackerdojo.com'` suffix is
  treated as the identity mapping, so a self-award is `giver == recipient`.
- The current month (`datetime.now().strftime('%B')`) is an input label.
- The member directory (`domain('/users')`) is an input set.
- The signed-in user is an `Option<Member>`.
- A refused request (nobody signed in, or an unknown recipient) redirects in the
  source. Here it is a `Failure` result, and the engine leaves its state
  unchanged.
- The transfer reproduces the source's write order exactly:
  1. read the giver's profile snapshot;
  2. clamp the amount;
  3. fetch the receiver's profile, credit it and write it;
  4. append the award;
  5. debit the snapshot and write it last.

  So on a self-award the credit is overwritten. `Transfers.SelfAwardLosesCredit`
  states the outcome.

Facts about the code that the model keeps:

- The leaderboards order by `-counter`, so members with equal counters may sit
  next to each other. The order is non-increasing, not strictly descending.
- The monthly sweep returns nothing; it reports no count of reset ledgers.
- The receiver is credited and written before the giver is debited.
- No transaction couples the two profile writes.
- A page view of a signed-in member creates that member's profile if it is
  missing (`MainHandler.get` calls `get_by_user`), so the engine has a view
  request alongside kudos requests and sweeps.

## Model

| member | source | states |
|---|---|---|
| Profiles.NewProfile | main.py:39-46 | a new profile belongs to its member, has the full monthly budget, zero counters and an empty month, and satisfies the ledger invariant |
| Profiles.Refresh | main.py:52-59 | after a refresh the profile is current for the month; a stale one gets the full budget and zero monthly counters, lifetime totals are kept, and a current one is unchanged |
| Profiles.RefreshIdempotent | main.py:52-59 | refreshing twice for the same month equals refreshing once |
| Profiles.RefreshRestoresSound | main.py:52-59 | a reset restores the ledger invariant (budget plus given-this-month equals the allowance, counters non-negative and within totals) |
| Profiles.GetByUser | main.py:61-67 | the member is present afterwards and the returned profile is the stored one; an existing profile comes back unchanged with the store untouched; otherwise exactly one default profile is added, placed last in the listing order (a modelling choice, see Left out) |
| Profiles.GetByUserNoDuplicate | main.py:61-67 | a second lookup of the same member finds the first one's profile and creates nothing |
| Profiles.GetByUserKeepsStored | main.py:61-67 | a lookup keeps every stored member and leaves its profile as it was |
| Profiles.GetByUserKeepsSound | main.py:61-67 | a lookup keeps the ledger invariant of every profile, the one it may create included |
| Profiles.GetByUserAfterOther | main.py:139-146 | fetching the giver first does not change the profile the receiver lookup returns when they differ |
| Awards.Hearts | main.py:100 | Python string repetition of the heart entity: empty for n <= 0, otherwise n copies, character by character |
| Awards.RepeatsUnique | main.py:100 | the repeated heart string is determined by its count: two strings that each repeat the heart n times are equal |
| Awards.KudosHearts | main.py:99-100 | an award renders the heart entity once per point awarded, character by character, and nothing for a non-positive amount |
| Awards.PairSumOutside | main.py:194-196 | a pair no award connects accumulates nothing |
| Awards.AppendAward | main.py:188-192 | appending one award adds exactly its pair and its two endpoints |
| Awards.PairEndpoints | main.py:189-192 | both members of every connected pair are endpoints |
| Transfers.Clamp | main.py:140-144 | the transferred amount is the request projected onto [0, budget]: never negative, at most a non-negative budget, the request itself when in range, the budget when above it, zero when below zero |
| Transfers.Credit | main.py:147-148 | the receiver's monthly count rises by the amount, lifetime and monthly counts rise together; the member, the budget, both given counters and the refresh month are untouched |
| Transfers.Debit | main.py:157-159 | the budget falls by the amount; budget plus given-this-month and lifetime-minus-monthly giving are conserved; the member, both received counters and the refresh month are untouched |
| Transfers.Transfer | main.py:134-160 | refuses with no change when nobody is signed in or the recipient is not a member, and succeeds otherwise; on success the store stays well formed, both parties have profiles, no profile disappears, and exactly one award from the giver to the recipient with the given reason is appended |
| Transfers.TransferWrites | main.py:146-160 | the store after a transfer is the receiver (fetched after the giver) credited and written, with the giver's earlier snapshot debited and written over it; the award is appended |
| Transfers.TransferClampsAmount | main.py:139-155 | the recorded amount is the request clamped against the giver's budget as read before the transfer |
| Transfers.TransferAboveBudget | main.py:141-142 | a request above the budget gives exactly the same result as a request for the budget |
| Transfers.TransferBelowZero | main.py:143-155 | a negative request gives exactly the same result as a request for 0 and still appends a zero-point award |
| Transfers.TransferDebitsGiver | main.py:139-160 | the giver, self-awards included, ends with the snapshot read before the transfer debited by the clamped amount, and that award is appended |
| Transfers.TransferCreditsReceiver | main.py:146-148 | a receiver other than the giver ends with its earlier profile credited by the clamped amount |
| Transfers.TransferBetweenMembers | main.py:146-160 | between two different members: the giver's budget falls and both given counters rise by the clamped amount, the receiver's received counters rise by it, and that award is appended |
| Transfers.TransferFrame | main.py:146-160 | no profile other than the giver's and the receiver's changes |
| Transfers.SelfAwardLosesCredit | main.py:146-160 | a self-award stores the pre-transfer snapshot with only the debit applied, received counters unchanged, and the award is still logged |
| Transfers.TransferConserves | main.py:140-160 | if budget plus given-this-month equals the allowance for the giver before, it does after; with sound ledgers the award lies in [0, 10] |
| Transfers.TransferKeepsSound | main.py:140-160 | the ledger invariant of every profile survives a transfer, self-awards included |
| Transfers.TransferKeepsTotalsMonotone | main.py:147-159 | no profile's lifetime received or given total decreases, self-awards included |
| Transfers.TransferKeepsClosed | main.py:139-155 | if every member named in the log had a profile before, the same holds after the transfer |
| Transfers.ExhaustedBudgetGivesZero | main.py:140-160 | a giver with nothing left logs a zero-point award and no existing profile changes |
| Transfers.FullBudgetExample | main.py:140-160 | from an empty store, a request for 15 moves 10: giver at 0 left and 10 given, receiver at 10 received |
| Sweep.RefreshAll | main.py:177-179 | the sweep keeps the same members in the same order and refreshes each profile independently |
| Sweep.SweepResetsStale | main.py:177-179 | after the sweep every profile is current: stale ones reset with totals kept, current ones untouched |
| Sweep.SweepIdempotent | main.py:177-179 | a second sweep in the same month changes nothing |
| Sweep.SweepKeepsSound | main.py:177-179 | the sweep preserves the ledger invariant of every profile |
| Leaderboards.Positive | main.py:73 | the filter keeps exactly the profiles with a positive counter, each as often as in the input |
| Leaderboards.Insert | main.py:73 | inserting into a ranked sequence keeps it ranked, adds exactly that one element, and adds nothing else |
| Leaderboards.Rank | main.py:73 | the ordering is a permutation of its input, sorted non-increasing by the counter |
| Leaderboards.Top | main.py:69-83 | a leaderboard is sorted non-increasing by its counter and is a permutation of the stored profiles with a positive counter; the two boards are the next rows |
| Leaderboards.TopReceiversThisMonth | main.py:69-76 | the receivers' board lists exactly the stored profiles that received this month, each as often as it is stored, most received first |
| Leaderboards.TopGiversThisMonth | main.py:78-83 | the givers' board lists exactly the stored profiles that gave this month, each as often as it is stored, most given first |
| Leaderboards.TopMembership | main.py:69-83 | a stored member's profile is on the board exactly when its counter is positive |
| Leaderboards.TopEntriesStored | main.py:69-83 | every entry of a board is the stored profile of its own member |
| Display.ViewBudget | main.py:108-110 | the remaining string is the heart repeated once per budget point, the used string once per point of the allowance not left, and the amount menu has one option per remaining point, numbered 1 upward, each labelled with that many hearts |
| Display.ViewShowsWholeAllowance | main.py:108-109 | for a sound ledger the remaining hearts show the budget, the used hearts show what was given this month, and together they show the whole allowance |
| Display.OptionsAreExactTransfers | main.py:110 | the menu offers exactly the amounts 1..budget, and the transfer moves each of them unclamped |
| Graph.Aggregate | main.py:188-196 | exactly one entry per directed pair that appears in the log, holding the sum of that pair's amounts |
| Graph.AddAwardSums | main.py:193-196 | one pass of the loop keeps the accumulator equal to the per-pair sums of the awards seen so far |
| Graph.Select | main.py:198-204 | the numbered members are exactly the listed members that took part, each once, and any two of them appear in the same relative order as in the listing |
| Graph.NumberNodes | main.py:198-204 | indices 0..k-1 go, in store order, to exactly the members that took part; the index map and the node list are inverse to each other |
| Graph.EdgesFaithful | main.py:205-213 | each emitted link joins two numbered members that some award connects, with that pair's total |
| Graph.EdgesComplete | main.py:205-213 | every pair some award connects whose two ends are numbered is emitted |
| Graph.BuildGraph | main.py:183-213 | nodes are the profiles of members who took part, in listing order; each link joins two node indices below the node count, follows a logged pair and carries its sum; every logged pair whose two ends are nodes is emitted |
| Graph.DroppedExactlyWhenUnprofiled | main.py:198-213 | a logged pair has a link if and only if both of its members have profiles |
| Graph.NoLinkDroppedWhenClosed | main.py:198-213 | when every member in the log has a profile, every logged pair has a link |
| Graph.AggregateByTextKey | main.py:193-196 | the accumulation as written: every award lands under its text key; each entry exists only for a key some award prints as, holds the pair of the earliest award in log order printing as that key, and holds the total of every award printing as that key, which may mix several pairs |
| Graph.AddByTextKeySums | main.py:193-196 | one pass of the loop as written keeps every entry's total equal to the sum of all awards printing as its key and its pair equal to the earliest such award's, and never changes the pair an existing entry holds |
| Graph.FirstPairIsEarliest | main.py:193-196 | the reference pair of a text key is the pair of the earliest award printing as that key, and there is none exactly when no award prints as it |
| Graph.TextKeySumOutside | main.py:193-196 | a text key no award prints as accumulates nothing |
| Graph.TextKeyMergesDistinctPairs | main.py:193-196 | the text key merges the distinct pairs a -> b-c and a-b -> c into one entry of 3, while the pair-keyed aggregation keeps 1 and 2 apart |
| Engine.Visit | main.py:103-105 | a signed-in page view leaves the log alone, adds no member but the visitor, gives a new visitor the default profile, keeps every existing profile as it was and keeps a healthy state healthy; a signed-out view changes nothing |
| Engine.TransferKeepsHealthy | main.py:139-160 | a successful transfer from a healthy state reaches a healthy state |
| Engine.Apply | main.py:103-179 | one request keeps the store well formed, appends at most one award to the log without changing earlier ones, removes no profile, and keeps a healthy state healthy (sound ledgers, every logged member has a profile, every award within [0, 10]) |
| Engine.RefusedRequestChangesNothing | main.py:136-138 | a request from nobody, or to someone outside the directory, leaves store and log exactly as they were |
| Engine.Run | main.py:103-179 | a run of requests keeps the store well formed, only appends to the award log, and keeps a healthy state healthy |
| Engine.ReachableHealthy | main.py:103-179 | every state reached from the empty store by any run of page views, kudos requests and sweeps is healthy: the ledger invariant holds for every profile and every award lies in [0, 10] |
| Engine.HealthyGraphDropsNothing | main.py:198-213 | in a healthy state, so in every reachable one, the graph has a link for every logged pair |

## Left out

- The memcache layer is not modelled: `fullname`, `UserWorker` and the leaderboard caches with their TTLs and the `refresh` flag. Leaderboards are recomputed on every call.
- The task queue, the `domain()` directory API and urlfetch are foreign calls. The directory is an input set.
- Google sign-in, login and logout URLs are not modelled. The signed-in user is an `Option<Member>`.
- `datetime.now()` is an input month label. The award's `created` timestamp is not modelled.
- Sweep.RefreshAll: `refresh` reads the clock once per profile (main.py:53), inside the loop at main.py:178-179. A sweep that straddles a month boundary can label the first profiles it visits with the old month and the rest with the new one. The model reads the clock once per sweep and hands one label to every profile, so `Sweep.SweepResetsStale` promises that every profile is current for that single label.
- Graph.AggregateByTextKey: the log is folded in append order. `Kudos.all()` (main.py:188) has no `.order()` and lists awards by datastore key, and automatically allocated ids need not follow creation order. Which pair an entry keeps under a shared text key is therefore that of the earliest award in the datastore's listing, which the model takes to be the append order.
- Template rendering, JSON output, redirects and `mail.send_kudos_email` are I/O. So is the WSGI routing in `main()`.
- `CertificateHandler` and `Kudos.from_profile`/`to_profile` are lookups used only for rendering.
- The name lists built in `MainHandler.get` need the directory and the name resolver.
- The signed-out branch of `MainHandler.get` only sets rendering placeholders.
- `int(self.request.get('points'))` raising on non-numeric text is not modelled. The requested points arrive as an integer.
- Transfers.Transfer: the transfer is all-or-nothing, but the handler writes the credited receiver (main.py:149) before it builds and stores the award (main.py:150-155) and writes the debited giver (main.py:160). If anything between them raises, the receiver keeps the credit with no award logged and no giver debit. Examples are a failed datastore put, or `db.StringProperty` rejecting a `reason` over 500 characters or one containing a newline. The model has no exceptions, so it does not represent that partial state.
- Profiles.GetByUser: `Profile.all()` lists profiles by datastore key, and automatically allocated ids need not follow creation order. Placing a new profile last in the listing order is a modelling choice. The graph's node numbering and the sweep's visiting order follow that listing order.
- Engine.Visit: a signed-out `get_by_user(None)` creates nothing (main.py:64). The visit models a signed-out view as no change.
- Datastore concurrency is not modelled. The code has no transactions, so transfers are sequential store updates.
- Leaderboards.Top: the order among profiles with equal counters is the datastore's and is not pinned down. The contract states sortedness and the permutation only.
- Graph.BuildGraph: node display names come from the name resolver and are not modelled, so a node is its member. The links form a set, because the handler emits them in dict iteration order.
- Graph.BuildGraph: links come from the corrected, pair-keyed `Graph.Aggregate`, not the handler's text key (see Findings). Where two pairs share a text key, the handler emits one merged link and this builder emits one per pair. The as-written accumulation is `Graph.AggregateByTextKey`.
- Integer counters are unbounded. The datastore's 64-bit integer properties cannot overflow at these magnitudes.

## Findings

| source | as written | input that shows it | evidently intended | confidence | as-written member | corrected member |
|---|---|---|---|---|---|---|
| main.py:193-196 | links are accumulated under the text key giver + "-" + receiver | awards a -> "b-c" (1 point) and "a-b" -> c (2 points) share the key "a-b-c"; one link of 3 points is emitted for whichever of the two pairs the datastore lists first, and the other pair vanishes | one entry per distinct directed (giver, receiver) pair holding that pair's sum | low: needs member identities containing "-"; not executed | Graph.AggregateByTextKey, Graph.TextKeyMergesDistinctPairs | Graph.Aggregate |
