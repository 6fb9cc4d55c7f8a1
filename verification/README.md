# Service discovery for Cloud Foundry apps, verified

This project models the service-discovery path of cf-app-sd-release and its load generator, and
proves what they keep over every run. It has four connected parts.

* **The address table.** `AddressTables.dfy` has the table as the program keeps it: a class whose
  hostnames map to slices over backing arrays, changed in place (`Slices.dfy`). `Tables.dfy` has it
  as a value, once as a map from absolute names (`Names.dfy`) to ordered entries (`Entries.dfy`) and
  once as a registry of (host, IP) pairs with their last registration time. `TableMachine.dfy` has
  it as a state machine in which every region run under the mutex is one atomic step and a prune
  pass is three, so that any other step may fall inside a pass. `Replay.dfy` drives the heap class
  through any schedule of these steps and of requests and shows that it follows the machine;
  `TableMachine.RunRefines` carries this on to the registry. `InsertionOrder.dfy` and `Pruning.dfy`
  prove what holds of all schedules.
* **The bus-driven protocol.** `Controller.dfy` is the subscriber as a machine: one-shot startup,
  messages, connection callbacks, the warm timer. Its events become operations on the table.
  `Availability.dfy` proves what the controller is for: no endpoint that does its part is lost across
  outages, and answers are complete once the table is warm. `Steady.dfy` is about endpoints that send
  in every window whether or not the bus delivers. `Outages.dfy` finds the writes of a schedule that
  can threaten them, `WorstCases.dfy` the messages that do, and `Completeness.dfy` concludes when the
  answers list them all. `Losses.dfy` has the runs, from boot, in which an endpoint is missing.
  `Subscriber.dfy` and `Server.dfy` have the same code in the program's own imperative form, on the
  heap table.
* **The client.** `Client.dfy` has the retries and the in-place shuffle of the DNS adapter, and
  `Resolution.dfy` puts the client, the server and the heap table together.
* **The load generator.** `Partition.dfy` splits a job among goroutines, `Workers.dfy` has their
  protocol over every interleaving, and `Runner.dfy` the runner's object, driven by any schedule of
  it. `Publisher.dfy` has the messages, and `Populator.dfy` runs the publishers and follows their
  messages through the controller into its table.

Time is an unbounded integer and never runs backwards. Calls that may fail, random draws and clock
readings are parameters. `dafny verify dfyconfig.toml` checks the project.

## What the proofs found

* A prune pass that is past its gate when the bus disconnects still deletes. An endpoint that could
  not register during the outage is then lost, although pruning is paused. `DisconnectIsSafeIff`
  gives the exact condition: a disconnection is safe for an endpoint if and only if no pass that
  concerns its host is under way, that is, a pass past its gate, or one whose scan listed the host.
* After an outage an endpoint that has not registered again is deleted by the next pass if and only
  if the whole resume delay has gone by and its last registration is older than the threshold
  (`OutageLosesIff`, `AbsenceIsReached`).
* Call a sender steady if it sends in every window of a length `p`, heard or not. A write of a prune
  pass is a threat if some entry could be stale at its scan and was not at the scan of the pass
  before. Every steady sender is listed at the end of a schedule of outages and passes if and only if
  the connection was up through a window of length `p`, and also through one since the threshold
  before each threat (`EverySenderListedIff`, and `AnswersCompleteIff` for the whole controller).
  The condition on threats always holds if `p` is shorter than the resume delay, no longer than the
  threshold, and no disconnection falls inside a pass (`ShortWindowsAreSafe`).
* The deployment sets the resume delay to the emitters' interval
  (`jobs/service-discovery-controller/templates/config.json.erb:21-25`), so that `p` is not shorter.
  After a time `u` up, an outage of length `o` and a pass a time `v` after the reconnection, with
  `p <= u` and `p` within the threshold, every steady sender is listed if and only if `v` is less
  than the resume delay, or `p < v`, or `o + v + p` is within the threshold
  (`OneOutageIff`). With the default 60 and 180 seconds and a pass as soon as the delay is over, an
  outage of up to 60 seconds is safe and any longer one can lose an endpoint that never missed an
  interval (`DefaultsAllowOneInterval`).
* A warm table need not be complete. The warm timer runs through an outage, and a table can become
  warm while it is empty (`WarmButEmpty`). If the connection was up through the first window a warm
  table lists every steady sender, as long as the condition on threats holds
  (`CompleteWhenUpFirst`).
* The shares of the runner leave out the last `n mod g` routes whenever `n mod g >= n / g`
  (`ExactCoverage`; eleven routes among four goroutines lose three).
* `Stop` checks, assigns and closes without a lock, so two callers can close the quit channel twice,
  which panics: any two workers that fail, or a worker and an outside caller (`TwoCallersCloseTwice`).
  No schedule does so if and only if at most one goroutine can call `Stop` (`NeverClosedTwiceIff`),
  and one does exactly when a check falls between the check and the assignment of another call
  (`ClosesTwiceIffOverlap`).
* A host whose entries are all pruned stays in the table with an empty list, while one whose last
  entry is removed goes. The second and later calls of `RunOnce` report no error even if the first
  failed. A registration request without a name looks up `registration`.
* `src/route_populator/publisher/publisher_test.go:67` expects one publication per route; the code
  publishes on two subjects, and the model follows the code.

## Model

| member | source | states |
|---|---|---|
| `Names.FqdnIdentifies` | src/service-discovery-controller/addresstable/address_table.go:221-234 | normalisation is idempotent and identifies two names exactly when they differ by at most one dot added to a relative name |
| `Tables.LookupIdentifiesHosts` | src/service-discovery-controller/addresstable/address_table.go:78-87 | two names get the same answer from every table if and only if they are the same host |
| `Entries.TouchTimes` | src/service-discovery-controller/addresstable/address_table.go:50-56 | a registration sets the time of its IP, leaves every other IP's time, and keeps the IPs distinct |
| `Entries.TouchOrder` | src/service-discovery-controller/addresstable/address_table.go:50-56 | a registration keeps the order of what was listed and puts a new IP last |
| `Entries.DropTimes` | src/service-discovery-controller/addresstable/address_table.go:65-73 | a removal takes out its IP and leaves the times of all others |
| `Entries.FreshTimes` | src/service-discovery-controller/addresstable/address_table.go:179-186 | the filter of a prune at one instant keeps exactly the IPs not older than the threshold, with their times |
| `Entries.FreshAtTimes` | src/service-discovery-controller/addresstable/address_table.go:179-186 | with a clock reading for each entry, an IP is kept exactly if it is not older than the threshold at its own reading |
| `Entries.FreshAtOrder` | src/service-discovery-controller/addresstable/address_table.go:179-186 | the filter keeps the order of the entries, whatever the readings |
| `Tables.AddAllRefines` | src/service-discovery-controller/addresstable/address_table.go:46-59 | a batch Add is, on the registry, an upsert of the pairs of its normalised names |
| `Tables.RemoveAllRefines` | src/service-discovery-controller/addresstable/address_table.go:61-76 | a batch Remove deletes exactly those pairs |
| `Tables.PruneAllRefines` | src/service-discovery-controller/addresstable/address_table.go:168-195 | the write section deletes exactly the stale pairs of its candidates and keeps the table well formed |
| `Tables.ScanRefines` | src/service-discovery-controller/addresstable/address_table.go:197-210 | the scan lists exactly the hosts of stale pairs |
| `Tables.LookupAgrees` | src/service-discovery-controller/addresstable/address_table.go:78-87 | an IP is in the answer for a name if and only if its pair is in the registry |
| `Tables.LookupDistinct` | src/service-discovery-controller/addresstable/address_table.go:78-87 | no IP is in an answer twice |
| `Tables.AddAllHosts` | src/service-discovery-controller/addresstable/address_table.go:46-59 | a batch Add touches each of its normalised names once and no other host |
| `Tables.RemoveAllHosts` | src/service-discovery-controller/addresstable/address_table.go:61-76 | a batch Remove drops its IP from those names only; a host goes exactly when it loses its last entry |
| `Tables.BatchDependsOnNames` | src/service-discovery-controller/addresstable/address_table.go:46-76 | at one instant a batch depends only on its set of normalised names, whatever their order, spelling or repetition |
| `Tables.PruneNext` | src/service-discovery-controller/addresstable/address_table.go:175-192 | at one instant, pruning the candidates one by one is the whole prune, and each changes the number of pairs by the lengths it counts |
| `Tables.PruneEachBetween` | src/service-discovery-controller/addresstable/address_table.go:168-195 | however the clock runs during the write section, a pair is deleted only if stale by the last reading, and every pair of a candidate stale by the first one is |
| `Tables.StaleHostsBetween` | src/service-discovery-controller/addresstable/address_table.go:197-210 | however the clock runs during the scan, its candidates lie between those of its first and its last reading |
| `Slices.Append` | src/service-discovery-controller/addresstable/address_table.go:53-53 | append writes in place while there is capacity and otherwise into a new array |
| `Slices.Delete` | src/service-discovery-controller/addresstable/address_table.go:71-71 | the removal shifts down in the same array |
| `Slices.Find` | src/service-discovery-controller/addresstable/address_table.go:212-219 | the loop finds the first position of the IP or none |
| `Slices.ToIPs` | src/service-discovery-controller/addresstable/address_table.go:143-150 | the IPs in order, in a new array with no spare capacity |
| `Slices.Refreshed` | src/service-discovery-controller/addresstable/address_table.go:179-187 | the loop gathers the entries fresh at their own readings, in order, in a new array |
| `Slices.AnyStale` | src/service-discovery-controller/addresstable/address_table.go:201-206 | true exactly when some entry is older than the threshold at its own reading |
| `AddressTables.AddressTable.Touch` | src/service-discovery-controller/addresstable/address_table.go:49-56 | one registration changes one host's entries in place, all other hosts' arrays keeping their contents |
| `AddressTables.AddressTable.Add` | src/service-discovery-controller/addresstable/address_table.go:46-59 | the heap table becomes the batch Add of its old value with a clock reading for each hostname, its arrays still separate |
| `TableMachine.BatchIsSchedule` | src/service-discovery-controller/addresstable/address_table.go:46-59 | such a batch, with any readings that do not decrease, is a run of the machine, so what is proved of all runs covers it |
| `AddressTables.AddressTable.Remove` | src/service-discovery-controller/addresstable/address_table.go:61-76 | the heap table becomes the batch Remove of its old value, without new arrays |
| `AddressTables.AddressTable.Lookup` | src/service-discovery-controller/addresstable/address_table.go:78-87 | the IPs of the name in order, each once, in an array that is not part of the table |
| `AddressTables.AddressTable.GetAllAddresses` | src/service-discovery-controller/addresstable/address_table.go:89-100 | exactly the stored hosts, each with what Lookup gives, in arrays that are not part of the table |
| `AddressTables.AddressTable.PassesGate` | src/service-discovery-controller/addresstable/address_table.go:156-161 | the gate is open when pruning is not paused and was never resumed, or resumed at least the delay ago |
| `AddressTables.AddressTable.AddressesWithStaleEntries` | src/service-discovery-controller/addresstable/address_table.go:197-210 | the candidates are exactly the hosts with an entry stale at its own clock reading, without duplicates, in any order |
| `AddressTables.AddressTable.PruneStaleEntries` | src/service-discovery-controller/addresstable/address_table.go:168-195 | the heap table becomes the prune of its old value with a clock reading for each entry, and the totals differ by the number of pairs deleted, even if candidates repeat |
| `Replay.Run` | src/service-discovery-controller/addresstable/address_table.go:46-210 | under every schedule of critical sections, Lookup, GetAllAddresses and SetWarm the heap table follows the state machine, and at the end every answer handed out still has what the table listed when it was asked |
| `TableMachine.RunRefines` | src/service-discovery-controller/addresstable/address_table.go:46-210 | in every run the ordered table has absolute keys and distinct IPs and abstracts to the registry of the same run |
| `TableMachine.RunIgnoresSpelling` | src/service-discovery-controller/addresstable/address_table.go:221-234 | whole runs do not change when hostnames are spelled otherwise |
| `TableMachine.RespelledEvent` | src/service-discovery-controller/addresstable/address_table.go:221-234 | adding or leaving out the final dot of any hostnames is such a spelling |
| `InsertionOrder.ListedInInsertionOrder` | src/service-discovery-controller/addresstable/address_table.go:46-87 | in every run from an empty table the answer for a name is exactly the IPs registered for it, each once, in the order of their insertion since they were last absent |
| `Pruning.LossHasACause` | src/service-discovery-controller/addresstable/address_table.go:168-195 | in every run a pair disappears only by its removal or by a write that finds it older than the threshold then |
| `Pruning.RegisteredSurvives` | src/service-discovery-controller/addresstable/address_table.go:155-195 | a pair registered no longer ago than the threshold and not removed is listed, whatever the interleaving |
| `Pruning.StaleAtScanIsGone` | src/service-discovery-controller/addresstable/address_table.go:162-195 | a pair stale at the scan and not registered again is gone after the write, whatever happens between |
| `Pruning.UndisturbedPass` | src/service-discovery-controller/addresstable/address_table.go:162-210 | with only time passing inside, a pass lies between the full filters of its two moments, and is the full filter when they coincide |
| `Pruning.ShutGateStopsPruning` | src/service-discovery-controller/addresstable/address_table.go:155-163 | while the gate is shut only a pass already beyond it deletes, and only once |
| `Pruning.PauseGuarantee` | src/service-discovery-controller/addresstable/address_table.go:120-133 | from a pause until the delay after the resume has gone by, at most the one pass in flight deletes |
| `Pruning.PassHasOpenGate` | src/service-discovery-controller/addresstable/address_table.go:155-163 | a pass in flight began at a gate check that found the gate open |
| `Pruning.StalenessBound` | src/service-discovery-controller/addresstable/address_table.go:152-210 | no entry is older than the threshold plus the time since the last completed pass scanned, under every interleaving |
| `Controller.StartupIsOneShot` | src/service-discovery-controller/mbus/subscriber.go:133-213 | in every run the startup's calls are those of one sequence of outcomes, stopping at the first failure, which closes the connection if there is one |
| `Controller.EachCallMadeOnce` | src/service-discovery-controller/mbus/subscriber.go:133-213 | however often RunOnce is called, each call of the startup, the connection included, is made at most once |
| `Controller.StartupLogIs` | src/service-discovery-controller/mbus/subscriber.go:133-213 | the log of a startup written out: the six calls in order up to the first failure, which closes the connection if there is one |
| `Controller.WarmsWhenDue` | src/service-discovery-controller/mbus/subscriber.go:202-205 | the timer that a finished startup sets off makes the table warm when the warming duration is over, not before |
| `Controller.WarmMeansSubscribed` | src/service-discovery-controller/mbus/subscriber.go:187-213 | a warm table has had its three subscriptions for the warming duration; a failed startup closes its connection and never warms |
| `Controller.StartupPersists` | src/service-discovery-controller/mbus/subscriber.go:133-213 | nothing undoes or repeats a finished startup, the timer is set once, and warm stays warm |
| `Controller.ClosedConnectionAddsNothing` | src/service-discovery-controller/mbus/subscriber.go:208-237 | once the connection is closed, as a failed startup does, no run lists a pair that was not listed then |
| `Controller.CloseEnds` | src/service-discovery-controller/mbus/subscriber.go:208-237 | the connection is closed exactly by Close once it was made, and by a startup that fails after connecting |
| `Controller.RegisterSets` | src/service-discovery-controller/mbus/subscriber.go:270-287 | in every run a register message that is decoded, has a host and is delivered sets the time of exactly the pairs it names; any other changes nothing |
| `Controller.UnregisterRemoves` | src/service-discovery-controller/mbus/subscriber.go:294-306 | in every run an unregister message that is decoded and delivered removes exactly the pairs it names; any other changes nothing |
| `Controller.NoEmptyIPStored` | src/service-discovery-controller/mbus/subscriber.go:270-287 | no run of the controller stores an empty IP |
| `Controller.UnregisterWithoutHost` | src/service-discovery-controller/mbus/subscriber.go:294-307 | an unregister message without a host changes nothing, not even the order of entries |
| `Controller.AddressesRefine` | src/service-discovery-controller/mbus/subscriber.go:269-315 | after every run of the controller the ordered table is well formed and abstracts to the registry |
| `Availability.NoEndpointLost` | src/service-discovery-controller/mbus/subscriber.go:138-160 | an endpoint whose last registration is no older than the threshold whenever it is connected and out of the resume delay is listed after every run in which no disconnection interrupts a pass on its host |
| `Availability.NextPassKeepsIff` | src/service-discovery-controller/addresstable/address_table.go:155-195 | that duty is exact: at an idle moment with the gate open, the next pass keeps the endpoint if and only if it meets its duty then |
| `Availability.DisconnectIsSafeIff` | src/service-discovery-controller/addresstable/address_table.go:152-195 | every dutiful continuation of a disconnection keeps the endpoint if and only if no pass that concerns its host is under way |
| `Availability.InterruptedPassDeletes` | src/service-discovery-controller/addresstable/address_table.go:152-195 | the run in which an interrupted pass deletes an endpoint that could not register |
| `Losses.InterruptedPassIsReached` | src/service-discovery-controller/addresstable/address_table.go:152-195 | this run from boot: startup, a registration, a gate passed, a disconnection; the endpoint meets its duty all through and is gone at the end |
| `Availability.OutageLosesIff` | src/service-discovery-controller/addresstable/address_table.go:127-163 | after an outage and a wait without registration, a pass deletes the endpoint if and only if the wait is the resume delay or more and its registration is older than the threshold |
| `Losses.AbsenceIsReached` | src/service-discovery-controller/addresstable/address_table.go:127-163 | the same from boot, for every length of outage and wait |
| `Losses.OneOutageIff` | jobs/service-discovery-controller/templates/config.json.erb:21-25 | from boot, for every window, delay, threshold and length: after one outage and a pass the answers list every steady sender if and only if a closed condition on these lengths holds |
| `Losses.DefaultsAllowOneInterval` | jobs/service-discovery-controller/templates/config.json.erb:3-25 | with the default 60 and 180 seconds, one outage followed by a pass as soon as the delay is over loses no steady sender if and only if it was no longer than 60 |
| `Availability.AnswersKeepDutifulEndpoints` | src/service-discovery-controller/mbus/subscriber.go:138-160 | what the whole controller would answer never lacks a dutiful endpoint |
| `Availability.SteadyEndpointListed` | src/service-discovery-controller/addresstable/address_table.go:168-195 | an endpoint that registers in every window of a length up to the threshold is listed from the end of the first window on |
| `Availability.CompleteOnceWarm` | src/service-discovery-controller/mbus/subscriber.go:187-205 | if from the register subscription on a registration of the endpoint is handled in every window of the warming duration, every answer of a warm table lists it |
| `Losses.WarmButEmpty` | src/service-discovery-controller/mbus/subscriber.go:202-205 | from boot: a table that was disconnected all through its warm-up is warm and empty |
| `Steady.SteadyStaysListed` | src/service-discovery-controller/addresstable/address_table.go:152-195 | in every run, whatever the window and the delay, a steady sender that has been heard is listed if the connection has been up through a window since the threshold before each write that had its host as a candidate |
| `Outages.PrunedAreThreats` | src/service-discovery-controller/addresstable/address_table.go:152-210 | whatever the messages, only a write that the schedule makes a threat can have a host among its candidates |
| `WorstCases.EverySenderListedIff` | src/service-discovery-controller/addresstable/address_table.go:152-195 | for every schedule of outages and passes, each steady sender, whoever else registers, is listed at its end if and only if the connection was up through a window, and through one since the threshold before each threat |
| `Completeness.AnswersCompleteIff` | src/service-discovery-controller/mbus/subscriber.go:133-205 | the same of the answers of the whole controller from boot, once it has its register subscription |
| `Completeness.SafeAnswersComplete` | src/service-discovery-controller/mbus/subscriber.go:133-205 | that the condition is enough, for steps of the clock and passes of any length |
| `Completeness.ShortWindowsAreSafe` | src/service-discovery-controller/mbus/subscriber.go:138-160 | the condition on threats holds for windows shorter than the resume delay and no longer than the threshold, if no disconnection falls inside a pass |
| `Completeness.CompleteWhenUpFirst` | src/service-discovery-controller/mbus/subscriber.go:187-205 | a warm table answers with every steady sender when the connection was up through the first window and the condition on threats holds |
| `Subscribers.Subscriber.RunOnce` | src/service-discovery-controller/mbus/subscriber.go:133-213 | the first call leaves the log of the one-shot startup and one timer exactly on success; later calls do nothing and report no error |
| `Subscribers.Subscriber.OnRegister` | src/service-discovery-controller/mbus/subscriber.go:270-287 | a decoded message with a host becomes a batch Add of its names with a clock reading for each; any other leaves the table; if the clock stands still this is what the controller's event emits |
| `Subscribers.Subscriber.OnUnregister` | src/service-discovery-controller/mbus/subscriber.go:294-307 | a decoded message becomes a batch Remove of its names; any other leaves the table; this is what the controller's event emits |
| `Subscribers.Subscriber.OnDisconnect` | src/service-discovery-controller/mbus/subscriber.go:153-160 | the handler pauses pruning and leaves the entries |
| `Subscribers.Subscriber.OnReconnect` | src/service-discovery-controller/mbus/subscriber.go:138-152 | the handler resumes pruning at the current time, leaves the entries and sends the start message |
| `Server.BaseIs` | src/service-discovery-controller/routes/server.go:164-164 | a name without slashes is what is looked up; without a name it is the directory's last element |
| `Server.BaseCases` | src/service-discovery-controller/routes/server.go:164-164 | the other paths: empty, slashes only, without slashes, and with slashes at the end, which do not matter |
| `Server.FillHosts` | src/service-discovery-controller/routes/server.go:180-186 | one host for each IP in its place, and a padding host for each element of spare capacity |
| `Server.HandleRegistrationRequest` | src/service-discovery-controller/routes/server.go:163-206 | a table that is not warm gives an error; a warm one exactly the IPs of the name, in order, without padding |
| `Server.HandleRoutesRequest` | src/service-discovery-controller/routes/server.go:208-216 | the listing has each stored host exactly once, with the IPs that Lookup gives |
| `Client.Shuffle` | src/bosh-dns-adapter/sdcclient/service_discovery_client.go:128-136 | the in-place loop computes the shuffle given by its draws |
| `Client.ShuffledPermutes` | src/bosh-dns-adapter/sdcclient/service_discovery_client.go:128-136 | every sequence of draws keeps the multiset of values, repeats included |
| `Client.ShuffleIsBijection` | src/bosh-dns-adapter/sdcclient/service_discovery_client.go:128-136 | each arrangement of distinct values comes from exactly one sequence of draws |
| `Client.DrawSwaps` | src/bosh-dns-adapter/sdcclient/service_discovery_client.go:128-136 | a draw exchanges the last value with the one drawn, and moves no other |
| `Client.LookupIPs` | src/bosh-dns-adapter/sdcclient/service_discovery_client.go:77-126 | the lookup succeeds if and only if one of at most four requests succeeds after failure statuses only and its body decodes, so three refusals and a 200 succeed and four refusals fail; it stops before the fourth only at a request that is not refused, and shuffles that body's hosts |
| `Resolution.Resolve` | src/bosh-dns-adapter/sdcclient/service_discovery_client.go:77-126 | client, server and heap table together, with any schedule before each request: the lookup succeeds if and only if the table is warm at one of the four, with exactly the multiset of IPs listed for the name at the first such moment, none padded |
| `Partition.PartitionRange` | src/route_populator/runner/runner.go:114-127 | the loop and the overwriting of its last element give the boundaries in closed form |
| `Partition.PiecesAre` | src/route_populator/runner/runner.go:114-127 | for every size all pieces have that size and the last one the remainder as well; the last boundary is the end |
| `Partition.EdgesInBounds` | src/route_populator/runner/runner.go:55-56 | indexing the boundaries by goroutine and successor is always in bounds |
| `Partition.ExactCoverage` | src/route_populator/runner/runner.go:45-57 | the shares reach the end if and only if n mod g < n / g, and otherwise leave out exactly n mod g routes |
| `Partition.ShareSizes` | src/route_populator/runner/runner.go:45-57 | every goroutine gets n / g routes, the last one also the remainder if it is smaller than a share |
| `Partition.ManyRoutesCovered` | src/route_populator/runner/runner.go:45-57 | they reach it whenever n >= g * g |
| `Partition.SharesAreConsecutive` | src/route_populator/runner/runner.go:45-57 | the shares start at the start, follow each other and are not empty |
| `Partition.EachRouteInOneShare` | src/route_populator/runner/runner.go:45-57 | a route is in exactly one share if it is before where the shares reach, and in none otherwise |
| `Runner.Runner.Start` | src/route_populator/runner/runner.go:40-88 | a stopped runner is not started; otherwise each goroutine gets its share |
| `Runner.AssignmentSizes` | src/route_populator/runner/runner.go:49-57 | the ranges handed out start at the start, follow each other and have these sizes |
| `Runner.Runner.Drive` | src/route_populator/runner/runner.go:49-105 | under every schedule of the goroutines and the callers of Stop the runner's flag, error channel and quit channel follow the protocol of Workers |
| `Runner.Runner.StartAndWait` | src/route_populator/runner/runner.go:40-98 | a runner started and driven to the end of its goroutines: each gets its share, and Wait returns an error exactly when one failed, the error of one that did, leaving one error for each of the others |
| `Workers.PostNeverBlocks` | src/route_populator/runner/runner.go:33-34 | in every reachable state the error channel has room for every worker that has an error to post |
| `Workers.WaitReportsFailure` | src/route_populator/runner/runner.go:49-98 | once the workers are done, Wait returns an error if and only if some worker failed, and each failed worker has posted exactly one |
| `Workers.FailedIsFailedCalls` | src/route_populator/runner/runner.go:58-83 | the failed workers are exactly those with a call that failed |
| `Workers.ErrorsInOrder` | src/route_populator/runner/runner.go:90-98 | the channel keeps the errors in the order of posting, and Wait returns the first |
| `Workers.RoundsFollowHeartbeats` | src/route_populator/runner/runner.go:58-83 | in every run a worker publishes one round when it has initialised and one for each heartbeat, before it waits again or ends |
| `Workers.WorkerCanLeave` | src/route_populator/runner/runner.go:70-83 | once the quit channel is closed every worker at work can end by its own steps without failing |
| `Workers.WaitsForHeartbeats` | src/route_populator/runner/runner.go:70-83 | until then a waiting worker stays, and after a heartbeat publishes another round and waits again |
| `Workers.CleanRun` | src/route_populator/runner/runner.go:70-105 | for every number of workers one outside Stop can end them all, and Wait then returns no error |
| `Workers.EndedStays` | src/route_populator/runner/runner.go:49-83 | a goroutine that has ended takes no further step, and none is moved by the steps of others |
| `Workers.DoneMeansStopped` | src/route_populator/runner/runner.go:70-83 | once the workers are done the runner is stopped, and if no error is reported the quit channel was closed |
| `Workers.ClosesAreRunningChecks` | src/route_populator/runner/runner.go:100-105 | the quit channel is closed once for each check of Stop that found the runner not stopped |
| `Workers.ClosesTwiceIffOverlap` | src/route_populator/runner/runner.go:100-105 | it is closed twice, or about to be, exactly when some check finds the runner not stopped while another call is between its check and its assignment |
| `Workers.NeverClosedTwiceIff` | src/route_populator/runner/runner.go:100-105 | no schedule closes it twice if and only if at most one goroutine can call Stop |
| `Workers.SerialStopClosesOnce` | src/route_populator/runner/runner.go:100-105 | it is closed at most once when no step separates a check from its assignment |
| `Workers.TwoCallersCloseTwice` | src/route_populator/runner/runner.go:58-105 | any two callers of Stop, failing workers or others, can close it twice |
| `Publisher.DecimalRoundTrip` | src/route_populator/publisher/publisher.go:99-99 | decimal printing can be undone, negative numbers included |
| `Publisher.HostnameShape` | src/route_populator/publisher/publisher.go:99-99 | a hostname is the app's name, a dash, the route's number in decimal without leading zeros, a dot and the domain |
| `Publisher.HostnamesDistinct` | src/route_populator/publisher/publisher.go:98-105 | the hostnames of different routes differ |
| `Publisher.Publisher.Initialize` | src/route_populator/publisher/publisher.go:81-107 | succeeds exactly for a job with every field set, a range that is not empty and a connection, and then holds a message with host, port and hostname for each route in order |
| `Publisher.Publisher.PublishRouteRegistrations` | src/route_populator/publisher/publisher.go:109-125 | publishes a full round, or the part of it before the call that fails |
| `Publisher.RoundOnEachSubject` | src/route_populator/publisher/publisher.go:111-121 | a full round puts every message exactly once, in order, on each subject |
| `Populator.PublishRound` | src/route_populator/runner/runner.go:40-69 | a runner's shares given to one publisher each: on either subject they publish once, in order, the routes the shares reach, which are all routes if and only if n mod g < n / g |
| `Populator.DeliveryFeeds` | src/service-discovery-controller/mbus/subscriber.go:270-287 | the controller turns the messages of a valid job, at any times, into the batch Adds of its table |
| `Populator.Populate` | src/route_populator/publisher/publisher.go:81-121 | runner, publishers and controller together: the messages published, in any order and at any times, leave in an empty table exactly the hosts of the routes reached, each with just the backend's IP; there are n if and only if n mod g < n / g |

## Left out

- A region of a run of the state machine takes one instant. If the clock runs during one, an Add is the run of `TableMachine.BatchIsSchedule`, and a scan or a write lies between those of its first and its last reading (`Tables.StaleHostsBetween`, `Tables.PruneEachBetween`).
- WorstCases.EverySenderListedIff: that a loss is possible is shown for schedules whose clock ticks by one and whose writes come no longer after their scan than the threshold; a longer pass also deletes what was registered after its scan, and what can then survive it depends on the messages. The other half, `Completeness.SafeAnswersComplete`, has no such bounds.
- Completeness.AnswersCompleteIff: has the same bounds.
- Durations do not saturate and integers do not overflow; the time since a resume that never happened is taken to be longer than any delay.
- Goroutine scheduling fairness, ticker shutdown, logging and metrics: only safety over steps is proved.
- HTTP, TLS and NATS libraries and JSON: messages and responses are already decoded, and every fallible call succeeds or fails as a parameter says. A body of JSON `null`, which makes the client dereference nil, is not modelled.
- The callbacks of the connection run at the moment it is lost or restored; a callback delayed by the library is a later event.
- The greet handler and the content of the start message: they do not touch the table. Messages in transit when the connection is lost count as not delivered.
- Path cleaning and percent-decoding by the HTTP server before the name is taken.
- Jobs with fewer routes than goroutines, for which the partition loop does not end: the runner requires at least as many routes.
- `src/bosh-dns-adapter/main.go`, configuration parsing, the example apps and the release's jobs and scripts.
