# A verified model of the bosh-dns server core

bosh-dns is a DNS server that runs on every instance of a BOSH deployment. It answers for the
instances' own names from a blob of records, prefers healthy instances, expands aliases, and
passes everything else to recursors. This project models the parts of it that hold state,
interleave, rewrite or parse, and proves what they promise. `dafny verify dfyconfig.toml`
checks it.

| file | models |
|---|---|
| `HealthWatcher.dfy` | the single-flight health check as a step system over any number of threads |
| `FailBuffer.dfy` | a recursor's failure window, and concurrent `registerResult` calls on it |
| `RecursorPool.dfy` | the smart and serial recursor pools: retries, cyclic tries, preference, settling |
| `AliasGraph.dfy`, `Aliases.dfy` | the alias config: loading, merging, reducing in place, alias hosts |
| `Transcript.dfy`, `Tracker.dfy` | the linked LRU transcript, and the index that decides what is watched |
| `Criteria.dfy`, `QueryMeaning.dfy` | the query language: parsing names, criteria, matching |
| `Encoder.dfy` | alias definitions printed as queries, and reading them back |
| `HealthFilter.dfy`, `RecordSet.dfy` | resolving names through two filter passes; taking over new blobs |
| `Answers.dfy` | what names, queries and alias definitions answer, end to end |
| `Arpa.dfy`, `Registrar.dfy` | reverse names; keeping the mux equal to the served domains |
| `Serving.dfy` | the record set and the mux together |
| `Strings.dfy`, `Sums.dfy` | names as strings and labels; sums over threads |

## How it is modelled

- Code that updates objects is a class or a method with loops, tied by its contract to a function
  on values; the laws are lemmas about that function. The two concurrent protocols are step
  relations on values, because a Dafny method runs alone: a step is one atomic action of one
  thread, and a run is any sequence of enabled steps.
- `sync.Cond.Wait` enqueues the waiter and releases the lock in one step. The read-write mutex has
  no preference for writers, which allows more interleavings than Go's. Setting an entry of
  `currentChecks` to nil is removing it. Condition numbers come from a counter that grows with
  every step, so each `sync.NewCond` is new.
- What lies outside is a parameter: the recursors' answers (a function of time and name), the
  health watcher's answers during one resolution (a function of the IP), and `net.ParseIP` (a
  predicate). A theorem holds for every such parameter.
- Go's order of map iteration is open: a method picks elements in any order and returns the order
  as a ghost result where the outcome depends on it. `ReducedForm` takes its order as an argument
  and is proved for all of them; the source sorts, which is one.
- `dns.Fqdn` appends a dot unless there is one, `dns.IsSubDomain` is the suffix order on labels,
  lower-casing is ASCII, and the query regular expressions are a letter-then-digits scanner.
- Calls of `Track` and `Untrack` by the tracker are synchronous events, in the order they are made.

Preconditions come from the source: a transcript of capacity 0 would follow a nil link
(`Touch`), a negative `maxRetries` would dereference a nil error (`performWithRetryLogic`), and a
pool has fewer than 2^64 recursors.

## What the proofs found

- An ip6.arpa name is converted wrongly exactly when the most significant nibble is 6 or a:
  `TrimRight` takes a set of characters, not a suffix (`Arpa.Ip6RoundTrip`, `Arpa.Ip6Trimmed`).
- `monitor` takes an evicted empty name for "nothing evicted" and leaves it recorded
  (`Tracker.MonitorSafe`, `Tracker.EmptyNameLeft`). It does not happen in the server, which only
  tracks names that parse (`RecordSet.TrackedExact`).
- The recursors are tried once each, in cyclic order, except when the 64-bit index wraps inside a
  call of a pool whose size does not divide 2^64 (`RecursorPool.CyclicExact`,
  `RecursorPool.WrapTriesTwice`).
- A printed query is read back as it was meant exactly when `findTLD`, a raw suffix search, finds
  its root domain (`Encoder.RoundTripExact`). The domains are listed in the order of a Go map
  (`src/bosh-dns/dns/server/records/record_set.go:307-316`), so with nested root domains some
  orders read a query for the inner one as one for the outer one (`Encoder.NestedDomainsMisread`).
- Loading the aliases of a blob cannot fail: `createFromJSON`'s error branch for it is dead
  (`Encoder.NamesNotEmpty`).
- An `Untrack` during a check is undone when the leader writes its result
  (`HealthWatcher.RecordAnswers`), so no lemma claims that an untracked IP stays untracked.
- A star inside a name pattern makes it match nothing (`QueryMeaning.InnerStarNeverMatches`).

## Model

| member | source | states |
|---|---|---|
| `HealthWatcher.SingleFlight` | src/bosh-dns/dns/server/healthiness/health_watcher.go:128-161 | In every run of any number of threads: no two threads lead a check of one IP, `currentChecks` has an IP exactly while some thread leads its check, and every sleeping caller sleeps on the condition of an owner, for the same IP, that has yet to broadcast |
| `HealthWatcher.FreshAnswer` | src/bosh-dns/dns/server/healthiness/health_watcher.go:129-160 | In every run, a caller that waited answers with the last thing that happened to its IP when it read, and that happened after its wait began: the result of a check finished since then, or the zero result because of an `Untrack`; the very check it waited for finished in between |
| `HealthWatcher.RecordAnswers` | src/bosh-dns/dns/server/healthiness/health_watcher.go:61-96 | In every run: a leader about to return has its own result on record (so an `Untrack` during the check is undone), `HealthState` answers the record or "unchecked", `Track` skips its check exactly when there is a record, and an `Untrack` about to return has left none |
| `HealthWatcher.HistoryTrue` | src/bosh-dns/dns/server/healthiness/health_watcher.go:91-96 | In every run the history holds only what happened: a finished check of an IP carries what `GetStatus` answered in some step to a thread that a `RunCheck` or `Track` of that IP had made its leader, and an untracking was asked for by an `Untrack` of that IP |
| `HealthWatcher.LeaderAnswered` | src/bosh-dns/dns/server/healthiness/health_watcher.go:142-160 | In every run a leader that has its answer got it from `GetStatus`, for its own check |
| `HealthWatcher.ServesItsCall` | src/bosh-dns/dns/server/healthiness/health_watcher.go:61-161 | In every run a thread works on the call it last began: its own kind and its own IP |
| `HealthWatcher.ReturnsWhenDone` | src/bosh-dns/dns/server/healthiness/health_watcher.go:61-161 | In every run a call returns only when it is done: `RunCheck` with the answer it waited for or published, `Track` also on a record it found but not without either, `Untrack` after the removal, `HealthState` with its answer |
| `HealthWatcher.TrackLooksFirst` | src/bosh-dns/dns/server/healthiness/health_watcher.go:61-74 | In every run a `Track` call checks only after it looked and found no record |
| `HealthWatcher.Progress` | src/bosh-dns/dns/server/healthiness/health_watcher.go:128-161 | In every reachable state all threads are idle or one can move: no deadlock on the mutex or a condition |
| `HealthWatcher.CallsReturn` | src/bosh-dns/dns/server/healthiness/health_watcher.go:128-161 | A run in which no new call begins is bounded in length; with `Progress`, once no new calls come, every call in progress returns under any scheduling |
| `HealthWatcher.MoveDecreases` | src/bosh-dns/dns/server/healthiness/health_watcher.go:128-161 | Every step, a broadcast that wakes many included, lowers the total number of steps still to go |
| `HealthWatcher.StepKept` | src/bosh-dns/dns/server/healthiness/health_watcher.go:61-161 | Every step of every thread keeps the whole invariant (lock, leaders, sleepers, history, answers) |
| `HealthWatcher.RunKept` | src/bosh-dns/dns/server/healthiness/health_watcher.go:61-161 | Every run keeps that invariant |
| `HealthWatcher.LockKept` | src/bosh-dns/dns/server/healthiness/health_watcher.go:61-161 | The mutex is held by exactly the threads inside their critical sections |
| `HealthWatcher.LeaderKept` | src/bosh-dns/dns/server/healthiness/health_watcher.go:129-146 | `currentChecks` registers exactly the leaders, under conditions that no two threads own |
| `HealthWatcher.SleeperKept` | src/bosh-dns/dns/server/healthiness/health_watcher.go:131-134 | A waiter that enqueues and releases the lock in one step always has an owner left to wake it |
| `HealthWatcher.LogKept` | src/bosh-dns/dns/server/healthiness/health_watcher.go:91-96 | `state` is always what the history of finished checks and untrackings says |
| `HealthWatcher.WokenAfterWrite` | src/bosh-dns/dns/server/healthiness/health_watcher.go:146-157 | A broadcast wakes a waiter only after the result it waited for has been written |
| `HealthWatcher.CheckedIffLed` | src/bosh-dns/dns/server/healthiness/health_watcher.go:130-146 | An IP is in `currentChecks` if and only if a thread leads its check, and then only one does |
| `HealthWatcher.RememberedLast` | src/bosh-dns/dns/server/healthiness/health_watcher.go:91-96 | The last event about an IP decides what is on record |
| `FailBuffer.WindowConserved` | src/bosh-dns/dns/server/handlers/failover_recursor_pool.go:174-191 | In every interleaving of receive, send and add: buffered outcomes plus calls between receive and send total 25, `failCount` is the failures in the buffer corrected by the pending old and new outcomes, outcomes leave in the order they entered, and no send blocks |
| `FailBuffer.AtRest` | src/bosh-dns/dns/server/handlers/failover_recursor_pool.go:94-105 | Whenever no call is between receive and add, `failCount` is exactly the failures among the last 25 outcomes sent, within 0..25 |
| `FailBuffer.OutcomesKept` | src/bosh-dns/dns/server/handlers/failover_recursor_pool.go:174-191 | No outcome is lost, invented or changed: over every run, as often as an outcome was sent or is yet to be sent, it was there at the start or was reported by a call |
| `FailBuffer.AllSent` | src/bosh-dns/dns/server/handlers/failover_recursor_pool.go:94-105 | When all calls have returned, exactly 25 initial successes and the reported outcomes were sent |
| `FailBuffer.Progress` | src/bosh-dns/dns/server/handlers/failover_recursor_pool.go:174-191 | Some call can always move unless none is in progress |
| `FailBuffer.CallsReturn` | src/bosh-dns/dns/server/handlers/failover_recursor_pool.go:174-191 | A run in which no new call begins is bounded in length; with `Progress`, once no new calls come, every call in progress returns under any scheduling |
| `FailBuffer.StepKept` | src/bosh-dns/dns/server/handlers/failover_recursor_pool.go:174-191 | Each of the three atomic actions keeps the conservation invariant, int32 wrap-around included |
| `FailBuffer.RunKept` | src/bosh-dns/dns/server/handlers/failover_recursor_pool.go:174-191 | Every run keeps it |
| `FailWindow.FailsShift` | src/bosh-dns/dns/server/handlers/failover_recursor_pool.go:177-188 | Dropping the oldest outcome and adding a new one changes the failure count by the difference of the two |
| `FailWindow.WindowShift` | src/bosh-dns/dns/server/handlers/failover_recursor_pool.go:177-178 | The window of a longer history is the old window shifted by one |
| `FailWindow.WindowExact` | src/bosh-dns/dns/server/handlers/failover_recursor_pool.go:94-105 | The window is the last 25 outcomes, and with fewer outcomes it has exactly their failures |
| `RecursorPool.Attempts` | src/bosh-dns/dns/server/handlers/failover_recursor_pool.go:129-144 | The number of work calls one recursor gets: all but the last are network errors, and it stops at m + 1 or at the first other answer |
| `RecursorPool.AttemptsUnique` | src/bosh-dns/dns/server/handlers/failover_recursor_pool.go:129-144 | Only one number of work calls stops as the loop does |
| `RecursorPool.PerformWithRetryLogic` | src/bosh-dns/dns/server/handlers/failover_recursor_pool.go:129-144 | The retry loop makes that many work calls, returns the last answer, and succeeds if and only if one of them did |
| `RecursorPool.Recursor.constructor` | src/bosh-dns/dns/server/handlers/failover_recursor_pool.go:94-105 | A new recursor has a buffer of 25 successes and an empty history |
| `RecursorPool.Recursor.RegisterResult` | src/bosh-dns/dns/server/handlers/failover_recursor_pool.go:174-191 | The returned counter is the number of failures among the last 25 outcomes of the recursor, the new one included |
| `RecursorPool.SmartPool.constructor` | src/bosh-dns/dns/server/handlers/failover_recursor_pool.go:87-118 | A new pool prefers recursor 0 and has no history |
| `RecursorPool.SmartPool.ShiftPreference` | src/bosh-dns/dns/server/handlers/failover_recursor_pool.go:168-172 | The preferred index grows by one modulo 2^64 and nothing else changes |
| `RecursorPool.SmartPool.TryOne` | src/bosh-dns/dns/server/handlers/failover_recursor_pool.go:150-163 | One recursor tried: its work calls, its registered outcome, and the shift of the preference when it is the first tried and over the threshold |
| `RecursorPool.SmartPool.PerformStrategically` | src/bosh-dns/dns/server/handlers/failover_recursor_pool.go:146-166 | The call tries recursors in the order of the preferred index, stops at the first that answers, and leaves the pool as the history of those tries says |
| `RecursorPool.CallOutcome` | src/bosh-dns/dns/server/handlers/failover_recursor_pool.go:146-166 | A call succeeds if and only if one of its work calls did, gives up only after trying every recursor, and makes at most n * (maxRetries + 1) work calls |
| `RecursorPool.CyclicExact` | src/bosh-dns/dns/server/handlers/failover_recursor_pool.go:147-151 | A call tries each recursor once if and only if the 64-bit index does not wrap within the call or the size of the pool divides 2^64; and then it tries them in cyclic order |
| `RecursorPool.WrapTriesTwice` | src/bosh-dns/dns/server/handlers/failover_recursor_pool.go:147-151 | A failing input: in a pool of three, with the index at 2^64 - 1, recursor 0 is tried twice and recursor 2 never |
| `RecursorPool.CallHistory` | src/bosh-dns/dns/server/handlers/failover_recursor_pool.go:153-163 | A call registers exactly one outcome for each recursor it tried, failures and then the success if any, and none for the others |
| `RecursorPool.AllFailedPreference` | src/bosh-dns/dns/server/handlers/failover_recursor_pool.go:159-162 | The preference moves by at most one per call, exactly when the first recursor tried has failed and is over the threshold |
| `RecursorPool.CallStopsAt` | src/bosh-dns/dns/server/handlers/failover_recursor_pool.go:146-166 | With recursor h always answering and the preference at or before it, a call succeeds at h or earlier |
| `RecursorPool.NeverPasses` | src/bosh-dns/dns/server/handlers/failover_recursor_pool.go:146-172 | Over any sequential run from such a preference, every call succeeds, the preference never goes back and never passes h, and no recursor after h is ever contacted |
| `RecursorPool.ShiftsBounded` | src/bosh-dns/dns/server/handlers/failover_recursor_pool.go:146-172 | However the other recursors behave, a run of any length with recursor h always answering changes the preference at most h times in all, so it settles |
| `RecursorPool.Settles` | src/bosh-dns/dns/server/handlers/failover_recursor_pool.go:146-191 | A new pool in front of h dead recursors stays at the first for five calls, moves on by one each call, and has settled on the healthy recursor h after h + 4 calls |
| `RecursorPool.SerialPerform` | src/bosh-dns/dns/server/handlers/failover_recursor_pool.go:120-127 | The serial pool tries recursors from the first on and stops at the first that answers |
| `RecursorPool.SerialOutcome` | src/bosh-dns/dns/server/handlers/failover_recursor_pool.go:120-144 | The serial pool succeeds if and only if a work call did, within the same bound on work calls |
| `AliasGraph.ReduceExact` | src/bosh-dns/dns/server/aliases/config.go:191-213 | On a map that may already be partly rewritten in place, `reduce2` reports a recursion if and only if the alias reaches a cycle of the original graph, and otherwise yields exactly the ordered leaves of its unfolding |
| `AliasGraph.HeightBound` | src/bosh-dns/dns/server/aliases/config.go:192-194 | The pigeonhole bound behind the guard: an unfolding is never higher than the number of aliases |
| `AliasGraph.TreeIffNoCycle` | src/bosh-dns/dns/server/aliases/config.go:191-213 | An alias has a finite unfolding if and only if it reaches no cycle |
| `AliasGraph.PathBounded` | src/bosh-dns/dns/server/aliases/config.go:192-194 | A path from an alias that reaches no cycle visits at most all aliases and one name more |
| `AliasGraph.CycleSomewhere` | src/bosh-dns/dns/server/aliases/config.go:171-189 | The graph has a cycle if and only if some alias reaches one |
| `AliasGraph.UnfoldingUnique` | src/bosh-dns/dns/server/aliases/config.go:191-213 | An alias has at most one unfolding |
| `AliasGraph.ReduceYields` | src/bosh-dns/dns/server/aliases/config.go:191-213 | Below the depth guard, `reduce2` yields the leaves of the unfolding, rewritten entries or not |
| `AliasGraph.ReduceTree` | src/bosh-dns/dns/server/aliases/config.go:191-213 | If `reduce2` succeeds at any depth, the alias has a finite unfolding |
| `Aliases.ReducedForm` | src/bosh-dns/dns/server/aliases/config.go:171-189 | For every order of processing: fails if and only if the original alias graph has a cycle, naming an alias that reaches it; on success every alias holds exactly its ordered leaf expansion in the original graph; on failure exactly the aliases before the failing one are expanded |
| `Aliases.ExpandOne` | src/bosh-dns/dns/server/aliases/config.go:176-186 | Expanding one more alias in place keeps the expansion of the original graph |
| `Aliases.IsReduced` | src/bosh-dns/dns/server/aliases/config.go:89-101 | True if and only if no target of an alias is itself an alias |
| `Aliases.ExpansionReduced` | src/bosh-dns/dns/server/aliases/config.go:89-101 | A successful reduction satisfies `IsReduced` |
| `Aliases.ExpansionUnique` | src/bosh-dns/dns/server/aliases/config.go:171-189 | The result is the same whatever the order of processing |
| `Aliases.ReduceAgain` | src/bosh-dns/dns/server/aliases/config.go:171-189 | Reducing the result again succeeds and changes nothing |
| `Aliases.NewConfig` | src/bosh-dns/dns/server/aliases/config.go:20-25 | A new config has two new empty maps |
| `Aliases.SetAlias` | src/bosh-dns/dns/server/aliases/config.go:59-87 | Fails exactly on the empty name; otherwise stores the qualified targets under the canonical key, on the underscore side for a name starting with "_.", and keeps all keys canonical |
| `Aliases.NewConfigFromMap` | src/bosh-dns/dns/server/aliases/config.go:27-40 | Fails exactly when a name is empty; otherwise holds what loading the entries in some order gives, with the list of alias hosts |
| `Aliases.EntryLoaded` | src/bosh-dns/dns/server/aliases/config.go:27-87 | Every loaded entry comes from a raw entry with that key and those targets, whatever the map order |
| `Aliases.LoadedHasEntry` | src/bosh-dns/dns/server/aliases/config.go:27-87 | Every raw entry has an entry under its key |
| `Aliases.AliasKeyExact` | src/bosh-dns/dns/server/aliases/config.go:79-84 | An alias "_.rest" is stored on the underscore side under "rest", any other on the plain side under its full lower-case name |
| `Aliases.QualifiedExact` | src/bosh-dns/dns/server/aliases/config.go:66-77 | A target "*.rest" becomes the query "q-s0.rest", an address stays as it is, any other becomes a full lower-case name |
| `Aliases.UnderscoreTargets` | src/bosh-dns/dns/server/aliases/config.go:110-130 | A "_." target takes the first label of the name asked for in place of its underscore; any other target stays |
| `Aliases.Merge` | src/bosh-dns/dns/server/aliases/config.go:149-169 | The receiver gains the entries it lacks, keeps its own, and the other config is not changed |
| `Aliases.BaseWins` | src/bosh-dns/dns/server/aliases/config.go:149-169 | After a merge, a name that the receiver defines resolves as before, and any other as in the merged config |
| `Aliases.GetAliasHosts` | src/bosh-dns/dns/server/aliases/config.go:219-255 | The list holds each alias host that has no other host above it, once |
| `Aliases.FindParent` | src/bosh-dns/dns/server/aliases/config.go:222-236 | Finds out whether another host lies above this one |
| `Aliases.HostsAntichain` | src/bosh-dns/dns/server/aliases/config.go:219-241 | No listed host lies below another |
| `Aliases.HostsCover` | src/bosh-dns/dns/server/aliases/config.go:219-241 | Every alias host lies at or below a listed host |
| `Strings.SubDomainExact` | src/bosh-dns/dns/server/aliases/config.go:225-230 | The order used for alias hosts is, between full lower-case names, that of string suffixes at a dot |
| `Aliases.ResolvedBelowHost` | src/bosh-dns/dns/server/aliases/config.go:103-133 | Every name that `Resolutions` knows lies at or below a listed host |
| `Transcript.Link.Remove` | src/bosh-dns/dns/server/tracker/transcript.go:10-13 | The neighbours of a removed link become each other's neighbours |
| `Transcript.Link.Append` | src/bosh-dns/dns/server/tracker/transcript.go:15-20 | The new link stands between the two, linked both ways |
| `Transcript.PriorityLimitedTranscript.constructor` | src/bosh-dns/dns/server/tracker/transcript.go:30-42 | The sentinels are linked to each other and the transcript is empty |
| `Transcript.PriorityLimitedTranscript.LiftKnown` | src/bosh-dns/dns/server/tracker/transcript.go:60-63 | A known name is taken out of the chain |
| `Transcript.PriorityLimitedTranscript.LiftNew` | src/bosh-dns/dns/server/tracker/transcript.go:64-70 | A new name gets a new link and a map entry |
| `Transcript.PriorityLimitedTranscript.MakeRoom` | src/bosh-dns/dns/server/tracker/transcript.go:72-79 | A full list loses exactly its oldest link, in chain and map, and reports its name |
| `Transcript.PriorityLimitedTranscript.Attach` | src/bosh-dns/dns/server/tracker/transcript.go:81-83 | The link becomes the newest and the transcript is consistent again |
| `Transcript.PriorityLimitedTranscript.Touch` | src/bosh-dns/dns/server/tracker/transcript.go:52-85 | Keeps the doubly linked chain, the name map and the length in agreement, and refines a step of the plain LRU sequence, the evicted name included |
| `Transcript.PriorityLimitedTranscript.Registry` | src/bosh-dns/dns/server/tracker/transcript.go:87-98 | Returns each held name once, `length` of them and as many as the map holds; they are the most recently touched distinct names of the whole history |
| `Transcript.PriorityLimitedTranscript.MapMatchesLinks` | src/bosh-dns/dns/server/tracker/transcript.go:22-28 | The name map and the chain hold the same names, `length` of them |
| `LruList.HoldsMostRecent` | src/bosh-dns/dns/server/tracker/transcript.go:52-98 | After any touches the sequence is exactly the newest `cap` of the distinct names in order of their last touch |
| `LruList.HoldsThatMany` | src/bosh-dns/dns/server/tracker/transcript.go:52-98 | It holds min(cap, distinct names ever touched) names, without repetition |
| `LruList.TouchNewest` | src/bosh-dns/dns/server/tracker/transcript.go:52-85 | One touch of the newest `cap` names gives the newest `cap` names of the longer history |
| `LruList.ByLastTouchAppend` | src/bosh-dns/dns/server/tracker/transcript.go:52-85 | A touch moves the name to the newest end of the order of last touches |
| `Tracker.AlwaysSafe` | src/bosh-dns/dns/server/tracker/tracker.go:63-134 | Over every run of monitor and refresh steps with non-empty names, from the start: each watched IP has a non-empty domain set and every recorded domain is in the transcript |
| `Tracker.MonitorSafe` | src/bosh-dns/dns/server/tracker/tracker.go:63-83 | A monitor step keeps that safety if and only if it does not evict an empty name that another IP records |
| `Tracker.EmptyNameLeft` | src/bosh-dns/dns/server/tracker/tracker.go:66-76 | A concrete run in which the evicted empty name is taken for "nothing evicted" and stays recorded |
| `Tracker.MonitoredExact` | src/bosh-dns/dns/server/tracker/tracker.go:63-83 | After a monitor step exactly the monitored name is recorded for its IP, which is watched; every other IP keeps all its domains but the evicted one, and stays watched unless that was its last |
| `Tracker.RefreshSafe` | src/bosh-dns/dns/server/tracker/tracker.go:85-134 | Every refresh keeps the safety |
| `Tracker.RunSafe` | src/bosh-dns/dns/server/tracker/tracker.go:63-134 | Every run from a safe state without empty names stays safe |
| `Tracker.RefreshWatchesKeys` | src/bosh-dns/dns/server/tracker/tracker.go:85-134 | If exactly the keys were watched before a refresh, exactly the keys are after it |
| `Tracker.IndexUnique` | src/bosh-dns/dns/server/tracker/tracker.go:93-126 | There is only one index with the stated meaning, so the order of the registry does not matter |
| `Tracker.AddDomain` | src/bosh-dns/dns/server/tracker/tracker.go:94-126 | Adding one registry domain's matches extends the relation by exactly that domain |
| `Tracker.FilteredRefers` | src/bosh-dns/dns/server/tracker/tracker.go:100-105 | The filtered records have an IP if and only if the domain's criteria match a record with it |
| `Tracker.TouchedMembers` | src/bosh-dns/dns/server/tracker/tracker.go:66-76 | A touch keeps every name but the one it evicts |
| `Tracker.Tracker.constructor` | src/bosh-dns/dns/server/tracker/tracker.go:40-48 | Nothing is tracked at the start |
| `Tracker.Tracker.DropDomain` | src/bosh-dns/dns/server/tracker/tracker.go:68-76 | The domain leaves every set, and Untrack is called once for exactly the IPs whose last domain it was |
| `Tracker.Tracker.Monitor` | src/bosh-dns/dns/server/tracker/tracker.go:63-83 | The new index, transcript and watched IPs, and the exact calls: Untrack once for each IP that lost its last domain, then one Track |
| `Tracker.Tracker.BuildIndex` | src/bosh-dns/dns/server/tracker/tracker.go:93-126 | Builds exactly the relation "registry domain parses and its criteria match a record with this IP", with one Track for each key that is new |
| `Tracker.Tracker.Refresh` | src/bosh-dns/dns/server/tracker/tracker.go:85-134 | The new index is that relation; Track is called once for exactly the new keys and Untrack once for exactly the keys that are gone, so never both for one IP |
| `QueryMeaning.FindsFirst` | src/bosh-dns/dns/server/criteria/query.go:101-109 | The domain found is the first listed one that is a raw suffix of the name |
| `Query.FindTLD` | src/bosh-dns/dns/server/criteria/query.go:101-109 | The result is a listed suffix of the name or empty, and empty when no listed domain is a suffix |
| `Criteria.ParseShortQueries` | src/bosh-dns/dns/server/criteria/criteria.go:219-233 | The pairs the scanner finds, appended in order; an error on a query without pairs |
| `Criteria.Match` | src/bosh-dns/dns/server/criteria/criteria.go:32-111 | Every field that is not a steering field has a value that matches the record |
| `Criteria.Filter` | src/bosh-dns/dns/server/records/query_filter.go:10-21 | The matching records in their order |
| `Criteria.FilteredExact` | src/bosh-dns/dns/server/records/query_filter.go:10-21 | Each matching record is kept as often as it occurs, and no other |
| `QueryMeaning.AppendedValues` | src/bosh-dns/dns/server/criteria/criteria.go:219-244 | Appending pairs adds each key's values, in order, behind those it had |
| `QueryMeaning.PairsMatch` | src/bosh-dns/dns/server/criteria/criteria.go:32-111 | Values of one key are alternatives and different keys must all be met |
| `QueryMeaning.ScanPrinted` | src/bosh-dns/dns/server/criteria/criteria.go:219-233 | The key-value scanner reads back any printed list of pairs, in order, repetitions included |
| `QueryMeaning.ScanSkips` | src/bosh-dns/dns/server/criteria/criteria.go:219-233 | The scanner passes over everything up to where a pair begins |
| `QueryMeaning.PairsSelect` | src/bosh-dns/dns/server/criteria/criteria.go:219-233 | The first label of a query, as text, selects exactly the records whose zone (a), index (i), number (m) and network (n) are each among the values given for that key, if any are; s and y exclude nothing |
| `QueryMeaning.ShortSelects` | src/bosh-dns/dns/server/criteria/criteria.go:18-213 | From a whole short query, as text: exactly the records that fit its pairs, contain its group ID and have its domain |
| `QueryMeaning.LongSelects` | src/bosh-dns/dns/server/criteria/criteria.go:18-213 | From a whole long query, as text: exactly the records that fit its pairs, have its domain, and whose group, network and deployment match its labels |
| `QueryMeaning.GlobMeaning` | src/bosh-dns/dns/server/criteria/criteria.go:113-146 | A leading star stands for any beginning, a trailing one for any end, and without a star the name itself is meant |
| `QueryMeaning.InnerStarNeverMatches` | src/bosh-dns/dns/server/criteria/criteria.go:113-123 | A star elsewhere makes a pattern that nothing matches |
| `QueryMeaning.ParseLong` | src/bosh-dns/dns/server/criteria/query.go:44-99 | A long name in a listed domain parses into exactly its labels |
| `QueryMeaning.MalformedIffNoDot` | src/bosh-dns/dns/server/criteria/query.go:44-49 | A name is malformed if and only if it has no dot |
| `QueryMeaning.SteeringIgnored` | src/bosh-dns/dns/server/criteria/criteria.go:32-42 | The fields y, s and fqdn never exclude a record |
| `QueryMeaning.InstanceSelects` | src/bosh-dns/dns/server/criteria/criteria.go:18-213 | From name to records: the long name of an instance selects exactly the records with that id and domain whose group, network and deployment match the labels (and whose group IDs contain the group label's number, if it is one) |
| `QueryMeaning.ShortInstanceSelects` | src/bosh-dns/dns/server/criteria/criteria.go:176-189 | The short name of an instance selects by its id, its group number if the label is one, and its domain |
| `QueryMeaning.AgentSelects` | src/bosh-dns/dns/server/criteria/query.go:51-55 | The name of an agent selects the records of that agent, whatever domains are listed |
| `QueryMeaning.OutsideSelects` | src/bosh-dns/dns/server/criteria/query.go:57-60 | A name in no listed domain selects by its first label alone, as an instance id |
| `QueryMeaning.OtherLengthsRefused` | src/bosh-dns/dns/server/criteria/query.go:62-99 | With a listed domain, a name parses if and only if one or three labels stand between its first label and the domain |
| `QueryMeaning.NoPairsRefused` | src/bosh-dns/dns/server/criteria/criteria.go:219-228 | A first label that starts as a query but holds no pair makes the name illegal |
| `QueryMeaning.GroupIDExact` | src/bosh-dns/dns/server/criteria/criteria.go:182-185 | A label is a group number if and only if it is "q-g" and digits |
| `Encoder.RoundTripExact` | src/bosh-dns/dns/server/records/dns_encoder.go:86-114 | For digit IDs and a lower-case root without trailing dot, parsing a printed query gives back exactly its m, s, y, g, domain and fqdn if and only if `findTLD` finds the root domain |
| `Encoder.NestedDomainsMisread` | src/bosh-dns/dns/server/criteria/query.go:101-109 | A failing input: with the outer of two nested root domains listed first, a query for the inner one is not read back as it was meant; listed last, it is |
| `Encoder.RoundTrip` | src/bosh-dns/dns/server/records/dns_encoder.go:86-128 | It does so whenever only the root domain is a listed suffix of the name |
| `Encoder.ScanEncoded` | src/bosh-dns/dns/server/criteria/criteria.go:219-233 | The scanner splits a printed query into exactly the printed pairs |
| `Encoder.FormParsed` | src/bosh-dns/dns/server/criteria/query.go:44-109 | A printed query parses as a short form of its own segments |
| `Encoder.FormCriteria` | src/bosh-dns/dns/server/criteria/criteria.go:173-213 | The criteria of that form are the printed fields |
| `Encoder.MeaningSelects` | src/bosh-dns/dns/server/criteria/criteria.go:32-171 | The criteria match exactly the records of that domain containing that group ID, with that number when one is given |
| `Encoder.EncodedSelects` | src/bosh-dns/dns/server/records/query_filter.go:10-21 | Filtering by a printed and parsed query keeps exactly those records, each as often as it occurs |
| `Encoder.UUIDEntriesExact` | src/bosh-dns/dns/server/records/dns_encoder.go:45-66 | The entries of a uuid alias are one per record of the group and root domain, in the order of the records: the name with the record's id, and a query for its number |
| `Encoder.ReplacedFirst` | src/bosh-dns/dns/server/records/dns_encoder.go:60 | The first underscore of the alias, and no other, becomes the record's id |
| `Encoder.ReplacedNothing` | src/bosh-dns/dns/server/records/dns_encoder.go:60 | An alias without underscore keeps its name |
| `Encoder.GroupMembersExact` | src/bosh-dns/dns/server/records/dns_encoder.go:45-66 | Those records are exactly the ones of that domain containing that group ID, each as often as it occurs |
| `Encoder.UUIDSelects` | src/bosh-dns/dns/server/records/dns_encoder.go:29-66 | Filtering by all queries of a uuid alias selects, as a set, exactly the records of that group and root domain |
| `Encoder.AliasEncoder.Append` | src/bosh-dns/dns/server/records/dns_encoder.go:68-74 | The map of lists collects one entry more |
| `Encoder.AliasEncoder.AppendUUIDQueries` | src/bosh-dns/dns/server/records/dns_encoder.go:45-66 | The map of lists collects the uuid alias's entries |
| `Encoder.AliasEncoder.AppendDefinitions` | src/bosh-dns/dns/server/records/dns_encoder.go:33-39 | The map of lists collects the entries of all definitions of a name |
| `Encoder.AliasEncoder.EncodeDomains` | src/bosh-dns/dns/server/records/dns_encoder.go:116-128 | Every name has its printed queries, in order |
| `Encoder.AliasEncoder.EncodeAliasesIntoQueries` | src/bosh-dns/dns/server/records/dns_encoder.go:29-43 | Every alias name gets exactly its own queries, in order, nothing left from an earlier call |
| `Encoder.NamesNotEmpty` | src/bosh-dns/dns/server/records/dns_encoder.go:29-66 | No alias name is empty, so loading them never fails |
| `HealthFilter.InterpretedExact` | src/bosh-dns/dns/server/records/health_filter.go:153-167 | The state that counts: failing if a queried group is failing, otherwise that of the last queried group reported on, otherwise the instance's own |
| `HealthFilter.InterpretHealthState` | src/bosh-dns/dns/server/records/health_filter.go:153-167 | The loop gives that state |
| `HealthFilter.StrategyExact` | src/bosh-dns/dns/server/records/health_filter.go:59-62 | A query without a strategy asks for the smart one; of several, the first counts |
| `HealthFilter.SelectedKeeps` | src/bosh-dns/dns/server/records/health_filter.go:74-90 | What is kept are the matches that the query's strategy keeps by the states of its groups |
| `HealthFilter.SortRecords` | src/bosh-dns/dns/server/records/health_filter.go:132-151 | The running, the failing, and the running then unchecked records, each in their order |
| `HealthFilter.InStateExact` | src/bosh-dns/dns/server/records/health_filter.go:132-151 | A class holds each record of its state as often as it occurs, and no other |
| `HealthFilter.ClassesSplit` | src/bosh-dns/dns/server/records/health_filter.go:132-151 | The four classes together are the matches, without overlap |
| `HealthFilter.FailingGroupExcludes` | src/bosh-dns/dns/server/records/health_filter.go:153-167 | A failing queried group puts a record among the failing and keeps it out of the others |
| `HealthFilter.Filter` | src/bosh-dns/dns/server/records/health_filter.go:52-111 | What the strategy keeps of the matches, and the hosts handed to the tracker |
| `HealthFilter.SelectedExact` | src/bosh-dns/dns/server/records/health_filter.go:74-90 | Record by record: what each of the four strategies keeps, in both directions |
| `HealthFilter.SmartNeverEmpty` | src/bosh-dns/dns/server/records/health_filter.go:83-90 | The smart strategy never turns matches into nothing |
| `HealthFilter.SelectedBySet` | src/bosh-dns/dns/server/records/health_filter.go:52-91 | As a set, what is kept depends only on the set of matches |
| `RecordSet.TwoPasses` | src/bosh-dns/dns/server/records/record_set.go:176-187 | Filtering by domain and then by health gives, as a set, the union over the criteria of the health-selected matches in all records |
| `RecordSet.SecondMatch` | src/bosh-dns/dns/server/records/record_set.go:219-228 | The second pass matches in the first pass's list exactly what it matches in all records |
| `RecordSet.ResolveExact` | src/bosh-dns/dns/server/records/record_set.go:127-188 | Criteria error if and only if an expansion does not parse; domain error if and only if all parse, none matches a record and none is an address; otherwise exactly the addresses of the chosen records and the address expansions |
| `RecordSet.BlobAnswers` | src/bosh-dns/dns/server/records/record_set.go:282-303 | From the blob to the answer: after a blob is loaded over a base that does not define the name, the name of one of its aliases resolves to exactly the records that the alias's definitions ask for (domain, group, number, health filter), and fails if and only if none addresses a record; for aliases that differ only in letter case, one of them decides |
| `RecordSet.UnderscoreAnswers` | src/bosh-dns/dns/server/records/record_set.go:282-303 | The same for an alias "_.rest" and every name of one label more |
| `RecordSet.BlobStored` | src/bosh-dns/dns/server/records/record_set.go:437-443 | Once a blob is loaded, a key holds exactly the printed queries of one of its spellings, whatever the map orders |
| `RecordSet.AliasAnswers` | src/bosh-dns/dns/server/records/record_set.go:127-203 | A name that resolves to printed definitions gives exactly the records that one of them asks for, and fails if and only if none addresses a record |
| `RecordSet.MeaningWanted` | src/bosh-dns/dns/server/records/record_set.go:167-228 | A definition's criteria match the records it addresses and health selection keeps exactly those it asks for |
| `RecordSet.RecordsExact` | src/bosh-dns/dns/server/records/record_set.go:167-188 | A record is returned if and only if some expansion's query matches it and health selection among that query's matches keeps it |
| `RecordSet.TrackedExact` | src/bosh-dns/dns/server/records/record_set.go:167-188 | A host goes to the tracker if and only if tracking is asked for and some expansion's query matches a record with its IP, unless that is a smart query with a single match; and never under an empty name |
| `RecordSet.ParseAllExact` | src/bosh-dns/dns/server/records/record_set.go:205-217 | Parsing succeeds if and only if every expansion parses |
| `RecordSet.RecordSet.constructor` | src/bosh-dns/dns/server/records/record_set.go:58-78 | Before the first blob: no records and a separate copy of the base aliases |
| `RecordSet.RecordSet.ParseCriteria` | src/bosh-dns/dns/server/records/record_set.go:205-217 | All criteria in order, or none |
| `RecordSet.RecordSet.ResolveRecords` | src/bosh-dns/dns/server/records/record_set.go:160-188 | The three outcomes of resolving and the hosts handed to the tracker |
| `RecordSet.RecordSet.Resolve` | src/bosh-dns/dns/server/records/record_set.go:127-158 | Lower-cases, expands aliases, and answers with record addresses and address literals |
| `RecordSet.CopyConfig` | src/bosh-dns/dns/server/records/record_set.go:73 | A copy of the base aliases that shares no map with them |
| `RecordSet.MergeOver` | src/bosh-dns/dns/server/records/record_set.go:303 | The base entries extended by the update's, in new maps, with the list of hosts |
| `RecordSet.RecordSet.LoadAliases` | src/bosh-dns/dns/server/records/record_set.go:437-443 | The blob's definitions, printed as queries and loaded as an alias config, never fail |
| `RecordSet.RecordSet.CollectDomains` | src/bosh-dns/dns/server/records/record_set.go:307-316 | Each domain of the records once |
| `RecordSet.RecordSet.Update` | src/bosh-dns/dns/server/records/record_set.go:282-317 | An unreadable blob changes nothing; a readable one replaces everything and its records are sent to the tracker once, and the merged aliases are the base-preferred union of the base and this blob's |
| `RecordSet.RecordSet.UpdateAll` | src/bosh-dns/dns/server/records/record_set.go:282-317 | After any run of updates the base aliases are unchanged, the set reflects the last readable blob alone, and the tracker was sent the records of every readable blob in order |
| `RecordSet.StoredQuery` | src/bosh-dns/dns/server/records/record_set.go:437-443 | The loader stores a printed query unchanged and it reads back as its encoder's criteria |
| `RecordSet.FilterMeaning` | src/bosh-dns/dns/server/records/dns_encoder.go:94-103 | A definition's health filter, printed and read back, selects by the state of its own group: failing, running, all, or the smart choice |
| `RecordSet.PrintedStrategy` | src/bosh-dns/dns/server/records/dns_encoder.go:94-110 | The strategy and the initial check read from a printed query are those its health filter and initial check name |
| `Answers.StandsForItself` | src/bosh-dns/dns/server/records/record_set.go:197-203 | A name that is no alias, or an alias without targets, stands for itself |
| `Answers.NameAnswers` | src/bosh-dns/dns/server/records/record_set.go:127-203 | A name that stands for itself answers with exactly the addresses of the records that its own query matches and health keeps, and fails if and only if none matches and it is no address |
| `Answers.IllegalRefused` | src/bosh-dns/dns/server/records/record_set.go:171-175 | A name that does not parse is refused with the criteria error |
| `Answers.InstanceAnswers` | src/bosh-dns/dns/server/records/record_set.go:127-203 | End to end: the long name of an instance answers with exactly the addresses of the records it names that are running or unchecked, or of all of them when none is |
| `Answers.QueryAnswers` | src/bosh-dns/dns/server/records/record_set.go:127-203 | End to end: a whole query answers with exactly the addresses of the records that fit its pairs, group and domain, as far as the strategy it names keeps them for its group |
| `Answers.StarSelects` | src/bosh-dns/dns/server/aliases/config.go:70-71 | A target "*.group.network.deployment.domain" is stored as a query for all records under those labels |
| `Answers.AskedWanted` | src/bosh-dns/dns/server/records/dns_encoder.go:76-83 | The query made of a definition is about the definition's records and asks for those its health filter names |
| `Answers.CheckAsked` | src/bosh-dns/dns/server/records/dns_encoder.go:76-110 | And it asks for the initial check that the definition names |
| `Answers.FiledQueries` | src/bosh-dns/dns/server/records/dns_encoder.go:29-66 | A name's queries are exactly those that definitions file under it: a plain one under its own name, a uuid one under the name with each group record's id, for that record's number |
| `Answers.DefinitionsAnswer` | src/bosh-dns/dns/server/records/record_set.go:282-303 | From the definitions of a blob to the answer: a name that the base does not define resolves to exactly the records that the definitions filed under it ask for, and fails if and only if none is about a record |
| `Answers.UnderscoreDefinitionsAnswer` | src/bosh-dns/dns/server/records/record_set.go:282-303 | The same for an alias "_.rest" and every name of one label more |
| `Answers.UUIDAnswers` | src/bosh-dns/dns/server/records/dns_encoder.go:45-66 | Under a uuid alias "_.rest", id.rest resolves to exactly the group records whose number is that of a group record with this id, as far as the health filter keeps them |
| `Arpa.Reverse` | src/bosh-dns/dns/server/handlers/arpa_handler.go:39-45 | The new array holds the segments in reverse |
| `Arpa.RefusedIffForeign` | src/bosh-dns/dns/server/handlers/arpa_handler.go:47-70 | A name is refused if and only if it ends, lower-cased, in neither reverse domain |
| `Arpa.ConvertToRecordIP` | src/bosh-dns/dns/server/handlers/arpa_handler.go:47-70 | The loop result is the groups of four of the padded reversed segments, the joined reversed segments, or an error |
| `Arpa.PrintGroups` | src/bosh-dns/dns/server/handlers/arpa_handler.go:57-63 | The printing loop gives the groups of four joined by colons |
| `Arpa.InAddrRoundTrip` | src/bosh-dns/dns/server/handlers/arpa_handler.go:65-67 | The in-addr.arpa name of any address (section 3.5 of RFC 1035), in any case, converts back to its dotted form |
| `Arpa.Ip6RoundTrip` | src/bosh-dns/dns/server/handlers/arpa_handler.go:51-64 | An ip6.arpa name (section 2.5 of RFC 3596), in any case, converts to the grouped form of its nibbles if and only if the most significant nibble is neither 6 nor a |
| `Arpa.Ip6Address` | src/bosh-dns/dns/server/handlers/arpa_handler.go:51-64 | The name of a whole IPv6 address converts to its eight groups of four nibbles joined by colons if and only if the most significant nibble is neither 6 nor a |
| `Arpa.Ip6Trimmed` | src/bosh-dns/dns/server/handlers/arpa_handler.go:52 | With a most significant nibble 6 or a, the answer never starts with that nibble |
| `Registrar.HandlerRegistrar.constructor` | src/bosh-dns/dns/server/handlers/handler_registrar.go:39-48 | No domain is registered at the start |
| `Registrar.HandlerRegistrar.UpdateDomainRegistrations` | src/bosh-dns/dns/server/handlers/handler_registrar.go:55-76 | Afterwards the registrar's domains and the patterns handled but not removed are both the provided list; only new ones are handled and only stale ones removed, each once |
| `Registrar.HandlerRegistrar.UpdateAll` | src/bosh-dns/dns/server/handlers/handler_registrar.go:55-76 | After any run of updates both equal the latest list |
| `Serving.AliasRouted` | src/bosh-dns/dns/server/handlers/handler_registrar.go:55-76 | With the registrar holding the record set's domains, every name that an alias resolves lies at or below a pattern the mux handles |
| `Serving.RecordRouted` | src/bosh-dns/dns/server/records/record_set.go:275-280 | And so does every name below the domain of a record |

## Left out

- Sockets, the DNS wire format, EDNS and truncation; the cache, metrics and request-logging handlers.
- JSON and file loading: the model starts from parsed records, definitions and hosts, and a blob that cannot be read or parsed is a missing value.
- Operating-system integration, server start-up, the upcheck and the health executable.
- The periodic loops (`Run`), work pools, throttlers, timers and logging; random shuffles.
- The synchronous initial check (`y` = 1): `Filter` reads one fixed health view and does not wait for checks it starts.
- A match maker that is not a `Criteria` in the health filter: the types of the model exclude it.
- `AliasResolutions`, `GetFQDNs`, `HasIP`, `AllRecords` and `RegisterAgentTLD`: single loops or single calls that would add only easy members.
- Escaped dots in names and non-ASCII letters, which `dns.Fqdn` and `strings.ToLower` treat specially.
- IPv6 literals as alias targets: they contain no dot, so a query for them does not parse.
- Settling of the smart pool under concurrent calls: two concurrent failures can shift the preference twice, so it is a law of sequential runs only.
- How often a record is returned: a record matched by several expansions is returned more than once, so the laws of resolving are about the set of records.
- `ReducedForm` leaves the underscore aliases alone, as the source does; nothing is claimed about cycles through them.
- The converse of the tracker's safety ("every IP of a live domain is watched") is not an invariant of the source, since `monitor` replaces an IP's domain set.
- RecursorPool.Settles: gives the exact calls at which the preference moves only for recursors that always or never answer; for all others `RecursorPool.ShiftsBounded` bounds how often it moves.
- FailBuffer.CallsReturn: a call that competes with an endless stream of new calls is not shown to return; that needs a fair scheduler.
- Aliases.GetAliasHosts: the source sorts the list; the model leaves its order open.
- HealthFilter.Filter: does not model the checks that `y` = 1 starts, nor waiting for them.
- RecordSet.RecordSet.constructor: models the fields that `NewRecordSet` sets up; its first update is a call of `Update`, and starting the goroutines is left out.
