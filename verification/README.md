# Direct-message reliability layer of x0x

This project models the parts of x0x on which reliable direct messages rest, and proves what
they promise together:

* **Capability discovery.** Agents announce what they can receive in signed adverts
  (`AdvertCodec.dfy`, on the wire format of `Postcard.dfy`, `Utf8Text.dfy` and `Bytes.dfy`). A
  consumer checks and stores them (`Ingest.dfy`, `CapabilityStore.dfy`); `OrderIndependence.dfy`,
  `StoreHistory.dfy` and `IngestHistory.dfy` say what every run of the store and of ingest keeps.
  The publishing task is a timed state machine (`Publisher.dfy`), its loop a class
  (`PublisherTask.dfy`). What it does about each thing that happens to it is in
  `PublisherReactions.dfy`, that it loses no request in `PublisherRequests.dfy`, its timing
  guarantees in `PublisherTiming.dfy`, that it never gets stuck in `PublisherProgress.dfy`, and
  `EndToEnd.dfy` puts publisher, network and consumer together.
* **Exactly-once delivery.** The dedupe cache and the timestamp window (`DeliveryCache.dfy`,
  `DeliveryLookups.dfy`), the per-request lock table (`DeliveryLocks.dfy`) and the waiters for
  acknowledgements (`InFlightAcks.dfy`).
* **Delegated authority.** Canonical bytes, policy, attenuation and chains (`Delegation.dfy`).
* **Bounded structures.** The digest diagnostic (`DigestDiagnostics.dfy`), the announce-blob cache
  (`BlobCache.dfy`) and the fan-out to local subscribers (`DirectFanout.dfy`,
  `FanoutHistory.dfy`).

Where the program changes things in place, the model is a class whose methods are proved equal to
a function on values; runs are sequences of operations over those functions, and the main results
hold of every run. The `Execute` methods drive an object through a whole run, so the results reach
the objects. The clock is a parameter of each operation. Instants and spans are exact real numbers
of milliseconds (`Clock.dfy`); only dates are cut to whole milliseconds, as in the program. Wall
clock and monotonic clock are one clock.

## What the proofs show

Over every run, the bookkeeping of each part comes down to something simpler that the program
does not keep:

* A message is taken in exactly when it carries its sender's own, rightly signed and newer record,
  field by field (`TakenExactly`), and everything stored, down to each digest bit, can be traced to
  such a message (`EveryEntryHasItsMessage`).
* A request for an advert is never lost to a failed build, a failed publish, capabilities that are
  not ready or a full queue (`NoRequestIsLost`).
* A lookup in the dedupe cache finds what was delivered, as it was delivered, and misses it only
  when it is too old or enough else was delivered since (`LookupTellsTheTruth`).
* The table of locks that are handed out, shared and forgotten does what one mutex per request
  would do (`RefinesMutexPerRequest`).
* A waiter sees the first acknowledgement in its version from its recipient and its pinned machine,
  and nothing else (`WaiterSeesItsFate`).
* The fan-out service agrees with a book of calls that says who took and who refused each message
  (`ServiceKeepsTheBook`).

Several properties one would expect hold under a condition only. For each of these the exact
condition is proved, with the runs that break the property when the condition fails.

* The store is independent of arrival order and duplication exactly when, for each agent, the
  latest extension names the machine of the latest advert, or every extension for that machine
  carries the advert's own bit (`OrderIndependentExactly`). One machine across an agent's
  extensions is enough (`OneMachineIsOrderFree`).
* An accepted record can be accepted again after eviction exactly when it was dated ahead of its
  arrival (`ReacceptedExactly`): its expiry is capped at arrival plus TTL, which then comes before
  its own date plus TTL.
* The dedupe cache absorbs every replay that the timestamp window lets through exactly when its
  TTL is at least envelope lifetime plus skew plus the longest time from a window check to the
  last lookup that goes with it (`ReplaySafeExactly`). The default TTL is envelope lifetime plus
  skew, so the default cache is replay safe only if no time passes in between
  (`DefaultCacheToleratesNoWait`). The durable path looks the key up again under the request's
  lock, with no new window check, so a durable message replayed in the last moments of its window
  can be delivered twice (`DurableReplay`).
* With the shipped constants a consumer that has heard from a publisher never fails to look it up
  exactly when delivery takes at most 239.999 s (`LookupNeverEmptyExactly`). The largest gap of
  660 s and a delay of 240 s use up the TTL of 900 s, but an advert is dated up to a millisecond
  before it is built.
* The two-stage decode inverts the encoder on every advert except those with a false digest bit
  and the one-byte signature `[0]` (`DecodeInvertsEncode`).
* Canonical delegation bytes are shared by different delegations only when their verb counts
  differ by a multiple of 256 (`SharedBytes`). Among grants that meet the policy, send-as grants
  are bound by their bytes whatever their number of verbs, and task grants of every number of
  verbs share theirs with a grant of 256 more (`AmbiguousExactly`). The length of the group id
  needs no bound: it is the last field.
* Two steady publishes are at least one interval apart exactly in on-demand mode
  (`RateBoundedExactlyOnDemand`).
* The blob cache keeps its cap of 256 in every run exactly when fewer than 256 blobs were loaded
  from disk; it never exceeds 257 (`CapHoldsExactly`, `NeverTwoOver`). A loaded blob that is never
  touched is never evicted (`UntouchedStays`).

Two places where the code and its documentation differ, and the model follows the code: the
documentation of `from_postcard` says a failed decode reports the error of the first stage, but
the code reports the error of the second (src/dm_capability.rs:182-200; the model has one error);
and the documentation of `recv` says a subscriber that falls behind is dropped, while the code
keeps it and evicts its oldest messages (src/direct.rs:338-366, 435-450).

## Model

| member | source | states |
|---|---|---|
| AdvertCodec.CapsRoundTrip | src/dm.rs:69-155 | the five frozen capability fields are read back, with whatever bytes follow them left over |
| AdvertCodec.HeadRoundTrip | src/dm_capability.rs:104-131 | everything before the digest bit and the signature is read back, with what follows left over |
| AdvertCodec.V1TailUnderV2 | src/dm_capability.rs:182-200 | a v1-shaped tail is accepted by the v2 reader for one signature only, and then as a true digest bit |
| AdvertCodec.DecodeTrueBit | src/dm_capability.rs:182-200 | an advert with a true digest bit is read back by the first stage |
| AdvertCodec.DecodeFalseBit | src/dm_capability.rs:182-200 | an advert with a false bit is read back by the second stage, and refused by the first but for one signature, which it misreads |
| AdvertCodec.DecodeInvertsEncode | src/dm_capability.rs:150-201 | decoding an encoded advert gives that advert if and only if its digest bit is true or its signature is not the single byte zero; it always gives some advert |
| AdvertCodec.DecodedAdvertVerifies | src/dm_capability.rs:133-201 | with a signature of two bytes or more, the receiver recomputes exactly the signed bytes and has the signer's signature |
| AdvertCodec.AdvertSignedBytesInjective | src/dm_capability.rs:136-147 | equal signed bytes mean equal adverts in every field but the signature |
| AdvertCodec.ExtensionSignedBytesInjective | src/dm_capability.rs:232-241 | equal signed bytes mean equal extensions in every field but the signature |
| AdvertCodec.SignedBytesDomainsDisjoint | src/dm_capability.rs:232-241 | no advert and no extension share signed bytes |
| AdvertCodec.ExtensionRoundTrip | src/dm_capability.rs:243-251 | an encoded digest extension decodes to itself |
| AdvertCodec.RequestRidesBothCarriers | src/dm_capability_service.rs:58-142 | a targeted request is read back on its own topic and on the steady topic, and neither copy decodes as an advert |
| AdvertCodec.AdvertIsNoRequest | src/dm_capability_service.rs:58-74 | no version-1 advert on the steady topic is taken for a request |
| AdvertCodec.RequestReadExactly | src/dm_capability_service.rs:58-74 | for every payload: on the request topic exactly those that begin with version 2 and an id are requests, on the steady topic exactly the domain with those two and nothing behind, elsewhere none |
| Utf8Text.ValidExactly | src/dm.rs:69-155 | the byte-wise check on the text of a capability record accepts exactly the UTF-8 encodings of Unicode scalar values |
| CapabilityStore.Expiry | src/dm_capability.rs:627-644 | an accepted record expires whole milliseconds after the instant of its arrival: one TTL after the earlier of its date and the date of its arrival, and not before its arrival |
| CapabilityStore.CapabilityCache.constructor | src/dm_capability.rs:324-330 | a new store is empty |
| CapabilityStore.CapabilityCache.InsertAdvert | src/dm_capability.rs:446-487 | the two maps and the answer are those of Insert: stale, replayed and untimely adverts change nothing, a newer one replaces, with the digest bit of a live extension of its machine |
| CapabilityStore.CapabilityCache.ApplyExtension | src/dm_capability.rs:500-536 | the two maps and the answer are those of Extend: a live newer extension blocks, otherwise it is stored and merged into a live advert of its machine only |
| CapabilityStore.CapabilityCache.InsertFromCard | src/dm_capability.rs:549-617 | the two maps and the answer are those of ImportCard, whose effect is that of CardInstalledExactly, InstalledCardIsFound and CardTouchesItsAgentOnly |
| CapabilityStore.CapabilityCache.LookupBinding | src/dm_capability.rs:344-357 | the binding and the map are those of Lookup: an expired entry is dropped and not returned |
| CapabilityStore.Execute | src/dm_capability.rs:344-617 | a store driven through a run of operations is in the state of that run |
| OrderIndependence.RunFollows | src/dm_capability.rs:446-536 | after any run of adverts and extensions the store holds, per agent, the latest of each kind seen and a bit with an explanation among them |
| OrderIndependence.StoreIsSettled | src/dm_capability.rs:446-536 | once all records of an order-free set arrived, the entry is the latest advert with the one bit the set determines |
| OrderIndependence.SufficientForOrder | src/dm_capability.rs:446-536 | two stores that got the same order-free records, in any order and with any repetition, agree on each agent's date, machine, capabilities and bit |
| OrderIndependence.NecessaryForOrder | src/dm_capability.rs:500-536 | records that are not order free have two deliveries that end in different entries |
| OrderIndependence.OrderIndependentExactly | src/dm_capability.rs:446-536 | all deliveries of a set of records agree if and only if the set is order free |
| OrderIndependence.OneMachineIsOrderFree | src/dm_capability.rs:500-536 | extensions of each agent that name one machine are order free |
| StoreHistory.RememberedInRun | src/dm_capability.rs:446-644 | in every run of an advancing clock without conflicting cards, the slot of an accepted record holds it or something newer until one TTL after the earlier of its date and its arrival |
| StoreHistory.LastWriteWinsSurvivesEviction | src/dm_capability.rs:446-536 | whatever a slot accepts after a record not dated ahead of its arrival is dated strictly later, through expiry and evicting lookups |
| StoreHistory.ReacceptedExactly | src/dm_capability.rs:627-644 | an accepted record can be accepted again if and only if it was dated ahead of its arrival |
| StoreHistory.BitAfterStep | src/dm_capability.rs:446-617 | a digest bit that an operation newly sets is the accepted advert's own or stands in an extension of the same machine |
| StoreHistory.DigestBitProvenance | src/dm_capability.rs:446-617 | in every run a stored true bit comes from the accepted advert of that date and machine or an accepted extension of that agent and machine, never from a card |
| StoreHistory.CardNeverLowers | src/dm_capability.rs:549-617 | a card never lowers a live entry's version or date; it removes the entry if and only if it has the same date, no lower version and other material |
| StoreHistory.InsertedExactly | src/dm_capability.rs:446-487 | an advert is inserted if and only if it is dated at most five minutes ahead and less than a TTL ago, and later than the entry there |
| StoreHistory.ExtendedExactly | src/dm_capability.rs:500-536 | an extension is applied if and only if its date is in time and later than that of a live one |
| StoreHistory.InsertedIsFound | src/dm_capability.rs:344-357 | an inserted advert is what a lookup returns, with its machine and the bit of a live extension of that machine, exactly until one TTL after the earlier of its date and its arrival; nothing else changes |
| StoreHistory.ExtendedIsFound | src/dm_capability.rs:500-536 | an applied extension is stored with its machine, bit, date and expiry, its bit is what a lookup of the live advert of that machine says from then on, and no other agent is touched |
| StoreHistory.CardInstalledExactly | src/dm_capability.rs:549-617 | a card is installed if and only if its date is in time and there is no entry, or it is dated later and no live entry has a higher version |
| StoreHistory.InstalledCardIsFound | src/dm_capability.rs:549-617 | a lookup returns the card's five frozen fields, its machine and the bit of a live extension of that machine or false, exactly until its expiry |
| StoreHistory.CardTouchesItsAgentOnly | src/dm_capability.rs:549-617 | other agents and all extensions stay, and a refused card changes nothing unless an entry has its very date |
| Ingest.IngestAdvertInto | src/dm_capability_service.rs:148-189 | the checks one by one on the store itself leave the store and the answer of IngestAdvert |
| Ingest.IngestExtensionInto | src/dm_capability_service.rs:196-236 | the same for extensions |
| Ingest.Execute | src/dm_capability_service.rs:148-236 | a new store driven through a run of arrivals holds and answers what that run says |
| Ingest.PrecheckRefinesVerification | src/dm_capability_service.rs:148-236 | over any sequence of messages, ingest with and without the staleness pre-check gives the same answers and the same store |
| Ingest.PublishedAdvertIsFound | src/dm_capability_service.rs:148-189 | capabilities built, signed and encoded by a peer, in time and newer, are decoded, verified and stored, and looked up with the live extension's bit exactly until one TTL after the earlier of date and arrival |
| IngestHistory.AdvertCheckedExactly | src/dm_capability_service.rs:148-179 | a signature check is made if and only if a verified message from another agent carries that agent's own version-1 advert and, with the pre-check, the store has none as new |
| IngestHistory.ExtensionCheckedExactly | src/dm_capability_service.rs:196-226 | the same for extensions, where only a live one stands in the way |
| IngestHistory.TakenExactly | src/dm_capability_service.rs:148-236 | over every run an arrival is taken in if and only if it is verified, from another agent, decodes to that agent's version-1 record, the key hashes to the agent and signed exactly its bytes, and it is in time and newer; otherwise nothing changes |
| IngestHistory.RepeatCostsNothing | src/dm_capability_service.rs:170-179 | an advert message that was taken in never costs another signature check, whatever came in between |
| IngestHistory.EveryEntryHasItsMessage | src/dm_capability_service.rs:148-236 | over every run each stored advert and extension, in agent, machine, date and content, and each stored digest bit came from a message that was taken in and signed by that agent |
| IngestHistory.BuiltExtensionDecodes | src/dm_capability_service.rs:861-884 | an extension is built if and only if the bit is on, and its encoding decodes to what was signed |
| IngestHistory.PublishedExtensionIsFound | src/dm_capability_service.rs:196-236 | a bit signed and encoded by a peer, in time and newer than a live one, is decoded, verified and stored, and a lookup of its live advert for that machine says it from then on |
| Publisher.RateAlways | src/dm_capability_service.rs:474-739 | in on-demand mode every schedule keeps steady publishes one interval apart and the last one remembered |
| Publisher.PeriodicBreaksRate | src/dm_capability_service.rs:682-737 | with the steady beat on, some schedule publishes twice within an interval |
| Publisher.RateBoundedExactlyOnDemand | src/dm_capability_service.rs:634-649 | steady publishes are at least one interval apart in every schedule of requests, changes, beats and failures if and only if the mode is on demand |
| PublisherTiming.FreshAlways | src/dm_capability_service.rs:474-739 | while publishes succeed at once, every schedule keeps the next wake-up in time for the next steady publish |
| PublisherTiming.SteadyAdvertStaysFresh | src/dm_capability_service.rs:634-683 | the first steady advert comes after 250 ms and no gap exceeds interval plus slack: 45 s or a tenth of the interval on demand, an interval with the beat on |
| PublisherTiming.StartsLate | src/dm_capability_service.rs:474-475 | in every schedule nothing is built before the start delay is over |
| PublisherTiming.LastBuilt | src/dm_capability_service.rs:556-594 | the most recent advert built in a log, and that none was built after it |
| PublisherTiming.ServedAlways | src/dm_capability_service.rs:505-737 | every request is answered, or its answer is on its way with a wake-up in time |
| PublisherTiming.EveryRequestAnswered | src/dm_capability_service.rs:505-737 | a request, even one that found the 16-slot queue full, is followed within a second by a targeted response built after it |
| PublisherProgress.OneBeat | src/dm_capability_service.rs:505-737 | from every state a promptly scheduled publisher can be in, its own steps let at least 5 s or a tenth of the interval pass |
| PublisherProgress.TimeGoesOn | src/dm_capability_service.rs:505-737 | every prompt schedule, whatever it has seen, can go on past any given time |
| PublisherReactions.DeadlineIsKept | src/dm_capability_service.rs:684-689 | a sleeping publisher starts a cycle when its deadline has come and not before, a steady one if it was waiting |
| PublisherReactions.StartIsKept | src/dm_capability_service.rs:474-475 | it starts when the start delay is over and not before |
| PublisherReactions.NewCapabilitiesAreSeen | src/dm_capability_service.rs:690-700 | new capabilities end any sleep: the next cycle is steady, uses them, and the burst begins anew |
| PublisherReactions.LostCapabilitiesAreSeen | src/dm_capability_service.rs:690-700 | a lost capability sender starts a cycle and leaves the burst alone |
| PublisherReactions.NoNewsIsNotSeen | src/dm_capability_service.rs:690-700 | with no change and the sender still there, nothing ends a sleep |
| PublisherReactions.LostCapabilitiesStay | src/dm_capability_service.rs:690-700 | nothing changes capabilities whose sender is gone |
| PublisherReactions.RequestLooksAgain | src/dm_capability_service.rs:539-554 | a request before readiness is remembered and leads to another look at the capabilities, and to an advert if they are ready by then |
| PublisherReactions.EndOfRequestsIsSeen | src/dm_capability_service.rs:539-554 | the end of requests is noticed when the queue is empty, and nothing is received after |
| PublisherReactions.ListensToTheEnd | src/dm_capability_service.rs:701-735 | in every schedule the publisher listens as long as someone can ask or something is queued |
| PublisherReactions.RequestWakesExactly | src/dm_capability_service.rs:701-735 | in every schedule a request read while waiting starts a cycle at once if and only if no response went out in the last second; otherwise the wake-up moves to a second after the last one, unless it is sooner |
| PublisherReactions.SteadyPublishExactly | src/dm_capability_service.rs:634-637 | in every schedule the advert goes on to the steady topic if and only if the beat is on in a steady cycle or the last announcement there is at least an interval old |
| PublisherReactions.SleepsExactly | src/dm_capability_service.rs:653-683 | in every schedule a cycle that ends is followed by the burst step, the interval, or on demand what is left of the interval since the last announcement, a tenth of it at least |
| PublisherRequests.NoRequestIsLost | src/dm_capability_service.rs:505-737 | in every schedule of failing builds and publishes, changing capabilities and full queues, a request no response built after it has answered is still queued or remembered |
| PublisherRequests.OutstandingIsServed | src/dm_capability_service.rs:556-636 | whatever happened before, the next cycle that builds and publishes answers every request made until then |
| PublisherTask.Task.constructor | src/dm_capability_service.rs:474-504 | the publisher starts with the delay armed, the burst used up unless the beat is on, and the steady flag set |
| PublisherTask.Task.StartCycle | src/dm_capability_service.rs:505-594 | draining the queue, the readiness test and the build leave the state of BeginCycle |
| PublisherTask.Task.AfterDigest | src/dm_capability_service.rs:585-600 | the cycle goes on the same whether or not the extension got out |
| PublisherTask.Task.AfterTargeted | src/dm_capability_service.rs:600-636 | the publisher is left in the state of FinishTargeted: a successful response clears the pending flag and stamps the time, a failed one keeps both so that no request is lost (NoRequestIsLost), and the steady decision follows (SteadyPublishExactly) |
| PublisherTask.Task.AfterSteady | src/dm_capability_service.rs:637-652 | only a successful steady publish moves the start of the window |
| PublisherTask.Task.CheckSteady | src/dm_capability_service.rs:634-637 | the steady decision leaves the state of SteadyCheck |
| PublisherTask.Task.ArmTimer | src/dm_capability_service.rs:653-683 | burst, beat or remaining window with its floor decide the wake-up, as in Schedule |
| PublisherTask.Task.OnTimer | src/dm_capability_service.rs:686-689 | the timer starts a steady cycle |
| PublisherTask.Task.OnCapsChanged | src/dm_capability_service.rs:690-700 | a change starts a steady cycle and restarts the burst; a closed channel does the former only while waiting |
| PublisherTask.Task.OnRequestWaiting | src/dm_capability_service.rs:701-735 | a request starts a cycle at once or brings the wake-up forward to a second after the last response, never later |
| PublisherTask.Task.OnRequestNotReady | src/dm_capability_service.rs:539-554 | a request before readiness is remembered |
| PublisherTask.Execute | src/dm_capability_service.rs:474-739 | a task driven through a schedule is in the state of that run of the state machine |
| EndToEnd.NotOutlived | src/dm_capability.rs:344-357 | with bounded gaps and delay, what is dated as late as everything delivered is at most gap, delay and the rest of its millisecond old |
| EndToEnd.FedStoreNeverStale | src/dm_capability.rs:344-357 | a store whose TTL covers announcement gap, delivery delay and a millisecond always finds an agent it has heard from |
| EndToEnd.PublisherNeverLost | src/dm_capability_service.rs:634-683 | over every schedule of a publisher and every run of a consumer, lookups after the first delivery find the publisher if its gap plus the delay plus a millisecond fits the TTL |
| EndToEnd.LostForAMoment | src/dm_capability.rs:72-86 | with a longer delay there is a schedule and a consumer whose lookup is empty while the second advert is on its way |
| EndToEnd.LookupNeverEmptyExactly | src/dm_capability.rs:72-86 | with the shipped constants, 600 s interval on demand and 900 s TTL, no lookup after the first delivery is ever empty if and only if delivery takes at most 239.999 s |
| DeliveryCache.RecentDeliveryCache.constructor | src/dm.rs:1191-1202 | a new cache is empty |
| DeliveryCache.RecentDeliveryCache.WithDefaults | src/dm.rs:1182-1187 | the default cache has a TTL of lifetime plus skew and room for 10000 |
| DeliveryCache.RecentDeliveryCache.LookupKey | src/dm.rs:1206-1221 | answer and cache are those of Lookup, which tells what was delivered (LookupTellsTheTruth); an expired entry leaves map and queue |
| DeliveryLookups.LookupTellsTheTruth | src/dm.rs:1206-1271 | in every run up to now a lookup that finds something finds outcome, version, binding and time of a claim of that key at most a TTL ago; and it finds every such claim unless at least the bound's number of other keys were claimed since |
| DeliveryLookups.EntryWasClaimed | src/dm.rs:1240-1307 | in every run each entry is what some claim of its key put there |
| DeliveryCache.RecentDeliveryCache.TrimToSize | src/dm.rs:1263-1269 | the loop drops the oldest until the bound is met |
| DeliveryCache.RecentDeliveryCache.InsertForProtocol | src/dm.rs:1240-1271 | the first claim of a key is stored and answered true, a second changes nothing |
| DeliveryCache.RecentDeliveryCache.CompleteDurable | src/dm.rs:1279-1307 | the same for durable completions, with their binding |
| DeliveryCache.Execute | src/dm_inbox.rs:1225-1262 | a cache driven through a run of receives, rechecks and claims is in the state of that run |
| DeliveryCache.TrimEvictsOldest | src/dm.rs:1263-1269 | a key is trimmed only when at least the bound's number of other keys stand behind it |
| DeliveryCache.AlwaysValid | src/dm.rs:1206-1307 | in every run queue and map hold the same keys once each, within the bound |
| DeliveryCache.ClaimIsAnswered | src/dm.rs:1240-1271 | in every run a delivery is told that it claimed its key if and only if it did |
| DeliveryCache.WindowExactly | src/dm.rs:1367-1382 | the verdict on every window in plain arithmetic: saturation makes no difference, and the future is named before expiry, expiry before lifetime |
| DeliveryCache.WindowCloses | src/dm.rs:1367-1382 | an envelope that passes the window passes it for less than lifetime plus skew after |
| DeliveryCache.LookupInTime | src/dm_inbox.rs:1767-1784 | every lookup of an envelope after its claim, first or second, comes before the TTL is over |
| DeliveryCache.GuardedInRun | src/dm.rs:1206-1271 | after a claim the key stays in the cache, with only keys claimed since behind it, unless so many others were claimed |
| DeliveryCache.SafeTtl | src/dm.rs:1167-1187 | with a TTL that covers lifetime, skew and wait a second claim of one envelope needs at least the bound's number of other claims in between |
| DeliveryCache.ReplayClaimedAgain | src/dm_inbox.rs:1784-1988 | a replay whose second lookup finds the entry expired is claimed again with nothing claimed in between |
| DeliveryCache.ShortTtl | src/dm.rs:1167-1187 | with a shorter TTL there is such a replay |
| DeliveryCache.ReplaySafeExactly | src/dm.rs:1167-1187 | replay safety over every run whose rechecks come within a wait of their window check if and only if the TTL reaches lifetime plus skew plus that wait |
| DeliveryCache.DefaultCacheToleratesNoWait | src/dm.rs:1182-1187 | the default cache is replay safe if and only if the wait is zero |
| DeliveryCache.DurableReplay | src/dm_inbox.rs:1248-1262 | on the default cache, a durable message completed after 5 ms and replayed 1 ms before its window closes is found by the first lookup, not by the one 7 ms later, and claimed again |
| DeliveryLocks.OldestIdle | src/dm.rs:1324-1329 | the first position in the queue whose lock nobody holds, or the end |
| DeliveryLocks.LockTable.FindIdle | src/dm.rs:1324-1329 | the search over the queue finds that position |
| DeliveryLocks.LockTable.Obtain | src/dm.rs:1316-1342 | the existing lock, a new one after forgetting idle ones, or none, as DeliveryLock says |
| DeliveryLocks.Execute | src/dm_inbox.rs:1764-1776 | a table driven through a run of asking, entering and letting go is in the state of that run |
| DeliveryLocks.RoomExactly | src/dm.rs:1323-1337 | room is made if and only if the table is not full or some lock is idle |
| DeliveryLocks.NoneExactlyWhenFull | src/dm.rs:1309-1342 | no lock is given exactly when the table is full of other requests' locks, each with a live handle |
| DeliveryLocks.AlwaysValid | src/dm.rs:1316-1342 | over every run of asking, entering, leaving and dropping, queue and map agree within the bound and every handle is to its request's current lock |
| DeliveryLocks.RequestsAreSerialized | src/dm.rs:1309-1342 | in every run two handles are to one lock if and only if they are for one request, at most one task is inside, and the bound holds |
| DeliveryLocks.RefusedExactly | src/dm.rs:1309-1342 | a lock is refused if and only if as many other requests as the table holds are being served |
| DeliveryLocks.RefinesMutexPerRequest | src/dm.rs:1309-1342 | in every run who serves which request and who is inside is what one mutex per request, for a bounded number of requests, would have it be |
| InFlightAcks.InFlight.constructor | src/dm.rs:1872-1874 | nobody waits at first |
| InFlightAcks.InFlight.RegisterWaiter | src/dm.rs:1925-1945 | a registration replaces the request's waiter |
| InFlightAcks.InFlight.ResolveWaiter | src/dm.rs:2010-2049 | a matching ACK removes the waiter, stamps and replies; any other changes nothing |
| InFlightAcks.InFlight.CancelWaiter | src/dm.rs:2065-2067 | the waiter is gone, nothing is sent |
| InFlightAcks.Execute | src/dm.rs:1925-2067 | a waiter map driven through a run of registrations, ACKs and cancellations is in the state of that run |
| InFlightAcks.FateOf | src/dm.rs:2010-2067 | the ACK a waiter's outcome comes from is for its request, after its registration, in its version, from its recipient and, if one is pinned, its machine |
| InFlightAcks.WaiterSeesItsFate | src/dm.rs:1925-2067 | over every interleaving each waiter gets exactly the outcome of the first matching ACK before it is cancelled or replaced, once, with an ingress stamp only for protocol 2 or above |
| InFlightAcks.OutcomeHasItsAck | src/dm.rs:2010-2062 | in every run an outcome a waiter sees is that of an ACK after its registration for its request, in its version, from its recipient and its pinned machine |
| InFlightAcks.MismatchedAckIsNothing | src/dm.rs:2051-2062 | an ACK resolves if and only if a waiter for the request is pending whose version and recipient are the ACK's version and sender and whose pinned machine, if any, is the ACK's machine; otherwise it leaves the whole state |
| InFlightAcks.OutcomesHaveWaiters | src/dm.rs:1925-2049 | every waiter id in use was handed out by a registration in the run |
| Delegation.AppendOption | src/delegation.rs:168-206 | an optional field is appended as a presence byte and the value |
| Delegation.AppendVerbs | src/delegation.rs:168-206 | the verb loop appends one byte per verb |
| Delegation.CanonicalBytes | src/delegation.rs:168-206 | the buffer filled field by field is the canonical encoding |
| Delegation.ScopesAndVerbsSpelled | src/delegation.rs:168-206 | the bytes that stand for scopes, verb counts and verbs on the wire |
| Delegation.SharedBytes | src/delegation.rs:168-206 | equal canonical bytes mean equal delegations or verb counts that differ by a multiple of 256 |
| Delegation.CanonicalInjective | src/delegation.rs:168-206 | delegations of at most 255 verbs with equal bytes are equal in every field |
| Delegation.SendAsInjective | src/delegation.rs:168-206 | policy-valid send-as grants with equal bytes are equal, however many verbs they list |
| Delegation.TaskGrantsCollide | src/delegation.rs:168-206 | from any policy-valid task grant issued before 2^48 ms and for every number of verbs, two different policy-valid task grants with equal bytes |
| Delegation.AmbiguousExactly | src/delegation.rs:168-206 | some policy-valid grant of a scope and a number of verbs shares its bytes with another if and only if the scope is task execution |
| Delegation.ValidatePolicy | src/delegation.rs:233-280 | no violation is reported if and only if the grant meets the policy, and a reported one is a violation of the grant and the first in the order of the checks |
| Delegation.PolicyExactly | src/delegation.rs:233-280 | the policy is met if and only if none of the eight violations is there |
| Delegation.IsAttenuatedBy | src/delegation.rs:328-372 | no widening is reported if and only if the child is narrower field by field, and a reported one is the first there is |
| Delegation.AttenuatedExactly | src/delegation.rs:328-372 | a child is narrower field by field if and only if it widens nothing |
| Delegation.AttenuationIsInclusion | src/delegation.rs:328-372 | for policy-valid grants that is exactly: every act the child permits, the parent permits |
| Delegation.Link | src/delegation.rs:410-431 | a verified attenuated child is one deeper and permits nothing its parent does not |
| Delegation.ChainBoundsAuthority | src/delegation.rs:410-431 | along a chain the leaf's authority is in the first grant's, which is a root exactly when the chain is as long as the leaf's depth, at most two |
| Delegation.ParentIsUnique | src/delegation.rs:208-221 | a child verifies against one parent only, given a collision-free digest |
| Delegation.FindByDigest | src/server/delegations.rs:554-559 | a committed grant with the wanted digest is found if there is one |
| Delegation.Authorize | src/server/delegations.rs:498-575 | an act is refused for a contested group before anything else, and admitted if and only if the group is not contested and every check on grant and parent passes |
| Delegation.AuthorizedExactly | src/server/delegations.rs:498-575 | among policy-valid grants an act is admitted if and only if the grant is the actor's own, permits it on some task, and is a root or contained in the live root it names by digest |
| Delegation.AuthorizedActHasRoot | src/server/delegations.rs:498-575 | every authorized act is covered by an unexpired root grant: the grant itself or a committed one given to its issuer |
| DigestDiagnostics.LowestUnique | src/dm_digest_diagnostics.rs:23-34 | there is one listing of the lowest ids, whatever the scan order |
| DigestDiagnostics.SelectKey | src/dm_digest_diagnostics.rs:23-34 | selecting one more key turns a listing of what was scanned into the listing with that key |
| DigestDiagnostics.SnapshotCapabilities | src/dm_capability.rs:647-726 | the scan lists the 512 lowest of the agents with an advert or an extension and counts each once |
| DigestDiagnostics.SnapshotRelay | src/peer_relay.rs:1028-1076 | the same for the relay's observed senders |
| DigestDiagnostics.JoinSnapshots | src/dm_digest_diagnostics.rs:137-166 | the join lists the 512 lowest of both row sets, or just the wanted agent, and marks truncation by the counts |
| DigestDiagnostics.LowestOfLowest | src/dm_digest_diagnostics.rs:142-148 | the lowest of two truncated listings are the lowest of everything |
| DigestDiagnostics.NotMissingExactly | src/dm_digest_diagnostics.rs:151-166 | the counts agree if and only if every retained id is listed |
| DigestDiagnostics.Diagnose | src/dm_digest_diagnostics.rs:137-166 | the whole diagnostic lists exactly the 512 lowest ids of both stores and is marked truncated exactly when one is left out |
| DigestDiagnostics.ListingIsByBytes | src/dm_digest_diagnostics.rs:23-34 | the lowest numbers are the byte arrays a `BTreeSet` lists first, and the other way round |
| Bytes.BigEndianOrder | src/dm_digest_diagnostics.rs:27-31 | byte arrays of one length are ordered as the numbers they spell |
| BlobCache.AnnounceBlobCache.constructor | src/announce_blob.rs:449-490 | at most 256 blobs are loaded, without access records |
| BlobCache.AnnounceBlobCache.TouchLru | src/announce_blob.rs:435-447 | the digest's record gets the next counter, or is added |
| BlobCache.AnnounceBlobCache.GetBlob | src/announce_blob.rs:247-256 | a hit is returned and touched, a miss changes nothing |
| BlobCache.AnnounceBlobCache.InsertVerified | src/announce_blob.rs:261-280 | insert, retain, sort, evict and touch leave the state of Insert |
| BlobCache.Execute | src/announce_blob.rs:247-280 | a cache loaded from disk and driven through a run of gets and inserts is in the state of that run |
| BlobCache.SortFacts | src/announce_blob.rs:270-271 | sorting keeps the records and puts them in ascending order |
| BlobCache.EvictFacts | src/announce_blob.rs:272-275 | the loop removes exactly the blobs and records of the first so many records |
| BlobCache.NeverTwoOver | src/announce_blob.rs:261-280 | from any load, no run ever holds more than 257 blobs |
| BlobCache.FullLoadOverflows | src/announce_blob.rs:449-490 | a full load and one new blob make 257 |
| BlobCache.CapHoldsExactly | src/announce_blob.rs:261-280 | the cap of 256 holds in every run if and only if fewer than 256 blobs were loaded |
| BlobCache.RefinesRun | src/announce_blob.rs:247-280 | every run of gets and inserts from an empty cache is step by step a run of the recency list |
| BlobCache.OrderIsLastTouch | src/announce_blob.rs:435-447 | the recency list is in the order in which its digests were last touched |
| BlobCache.CacheIsRecencyList | src/announce_blob.rs:247-280 | records are exactly the keys, at most 256, contents are those of the list, so an eviction takes the least recently touched |
| BlobCache.AlwaysAligned | src/announce_blob.rs:435-447 | after any load and run the counters of the records are in the order of the last touches |
| BlobCache.EvictsLeastRecent | src/announce_blob.rs:261-280 | after any load and run an insert evicts as many blobs as are over the cap or have a record, and each was touched before every recorded blob that stays |
| BlobCache.UntouchedStays | src/announce_blob.rs:449-490 | a loaded blob that no action touched is still there with its content |
| BlobCache.StartsFromDisk | src/announce_blob.rs:449-490 | a fresh cache holds exactly the first 256 blobs on disk, the last one under each digest, and no access records |
| BlobCache.GetReturnsLastInserted | src/announce_blob.rs:247-256 | after any load and run a get answers exactly for the digests that are there, with the blob inserted last under the digest or the loaded one |
| DirectFanout.SubscriberQueue.constructor | src/direct.rs:329-336 | a new queue is empty and open |
| DirectFanout.SubscriberQueue.PushDropOldest | src/direct.rs:338-366 | a closed queue refuses, a full one drops its oldest, and the outcome says which |
| DirectFanout.SubscriberQueue.TryRecv | src/direct.rs:368-376 | the oldest message is handed out, none from an empty queue |
| DirectFanout.SubscriberQueue.CloseQueue | src/direct.rs:382-385 | the queue is closed, its messages stay |
| DirectFanout.DirectMessaging.constructor | src/direct.rs:711-730 | the capacity is at least one and nobody is registered |
| DirectFanout.DirectMessaging.SubscribeDirect | src/direct.rs:405-433 | a fresh id and a fresh empty queue are registered |
| DirectFanout.DirectMessaging.DropReceiver | src/direct.rs:470-483 | the receiver is unregistered and its queue closed |
| DirectFanout.DirectMessaging.RemoveSubscribers | src/direct.rs:1507-1516 | exactly these ids leave the registry |
| DirectFanout.DirectMessaging.DeliverTo | src/direct.rs:1327-1351 | one round of the loop: the push, the counters, and whether it was taken |
| DirectFanout.DirectMessaging.Walk | src/direct.rs:1323-1352 | the loop over the snapshot, in any order, pushes once to each queue and counts as the rounds one by one |
| DirectFanout.DirectMessaging.Distribute | src/direct.rs:1293-1378 | the body of a call, accounted for round by round of its walk |
| DirectFanout.DirectMessaging.OfferPull | src/direct.rs:1362-1375 | the pull channel takes a copy unless it is full |
| DirectFanout.DirectMessaging.HandleIncoming | src/direct.rs:1293-1378 | every registered queue gets the push, the result is the number of open queues, exactly the closed subscribers leave, evictions and closed queues are counted, and the pull channel is offered a copy |
| DirectFanout.FannedOutIsDeliver | src/direct.rs:1293-1378 | that is the undisturbed delivery of the state machine: same queues, registry, counters and pull channel |
| DirectFanout.WalkedAll | src/direct.rs:1323-1352 | whatever the order, the walk delivers to exactly the open queues, refuses exactly the closed ones, and counts an eviction per full one |
| DirectFanout.OrderDoesNotMatter | src/direct.rs:1293-1378 | the interleaved steps of one undisturbed call, in any order of the registry, have one effect |
| DirectFanout.BufferIsRecentSuffix | src/direct.rs:338-386 | over every interleaving a buffer is the end of what was queued, within capacity; queued is read plus evicted plus buffered; reads are in order, and complete if nothing was evicted |
| DirectFanout.ReadsOldest | src/direct.rs:368-376 | in every run a read hands out the oldest message neither read nor evicted, and nothing only if there is none |
| DirectFanout.EvictionsAddUp | src/direct.rs:1331-1344 | the global eviction counter is the sum of the subscribers' evictions |
| DirectFanout.DeliveryReachesEveryone | src/direct.rs:1323-1360 | when a delivery returns, its count is the number of subscribers of its snapshot that took its message, once each; the others were closed and leave the registry |
| DirectFanout.SlowSubscribersAreIsolated | src/direct.rs:338-376 | runs that differ in the other subscribers' reads only give a subscriber the same messages, evictions and buffer |
| FanoutHistory.ServiceKeepsTheBook | src/direct.rs:405-483 | over every interleaving exactly those are registered who subscribed, did not leave and were not found closed by a delivery that returned; a delivery that returned reached everyone it started with; envelopes, envelopes taken and refusals are counted, and the pull channel holds what it had room for, in order |

## Left out

- Cryptography: signature checks and key derivation are arbitrary functions, BLAKE3 an injective function where uniqueness is claimed, an arbitrary one elsewhere; envelopes are not built or opened.
- Transport and scheduling: gossip topics, QUIC, tokio tasks and wakers; the publisher is kept as timed steps and deliveries as interleaved steps.
- Mutex poisoning and its fallbacks.
- Clocks: the last millisecond a 64-bit date can count; a wall clock that jumps against the monotonic clock; the division of a duration by ten is exact and not cut to nanoseconds.
- 64-bit wrap-around of counters and ids in the lock table, the waiters, the blob cache and the fan-out; dates of the store, the window and the codec saturate as in the source.
- Errors: postcard error kinds and the messages of authorization errors are reduced to variants or to none.
- The durable path after its second lookup: the lookup in the durable history and the commit to it, neither of which keeps an exact replay from being dispatched.
- Delegation: signatures of grants and roster membership; the quarantine marker is a parameter; the 8-bit depth wraps at 256 as in a release build.
- Diagnostics: the JSON rows, per-row states and ages.
- BlobCache: gets and inserts are sequential; the interleaving of the asynchronous locks, the fetch path and the write to disk are not modelled.
- DirectFanout: peer diagnostics and log output; the class delivers one message at a time, the interleaving of deliveries is in the state machine.
- EndToEnd: the consumer sees the publisher's adverts and any other records, but no cards for that agent, which are not dated by the publisher.
- Easy parts: announce_v3, contacts, connectivity, bootstrap, the request publisher's retries, scripts.
