# Webconsole: configuration, projection and provisioning

A Dafny model of the part of Webconsole that decides what network functions see and what each
subscriber gets. `dafny verify dfyconfig.toml` checks the whole project.

What the program does, in its own terms:

* Operators store network slices and device groups. A background worker reads both collections
  and publishes six sorted views of them (`InMemory`), which network functions fetch. Each
  successful `/config/v1` write sends a trigger on a one-slot channel; the worker cancels the
  previous synchronisation and starts a new one (`SyncProtocol`).
* Storing or deleting a slice or a group also derives records for every subscriber of the groups
  concerned, in five collections: AM policy, SM policy, AM data, SM data, SMF selection
  (`ConfigStore`). Subscriber, gNB and UPF requests change these and the slices too (`Inventory`).
* Rates are converted to bit/s when posted and printed with a unit when provisioned (`Bitrate`).
* Accounts are created, changed and deleted under guards over a bearer token (`Accounts`).

How the files are laid out:

| file | content |
|---|---|
| Prelude.dfy | optional values, the byte-wise string order, sorting with a comparator and unstable ties |
| Models.dfy | slices, groups, rules with the Go integer widths |
| Bitrate.dfy | 64-bit wrap-around, conversion, printing and reading rates, QoS aggregation |
| Views.dfy, InMemoryConfig.dfy, ViewTheorems.dfy | what the six views are, the class that builds them, and what they guarantee |
| ViewContents.dfy | what each published entry says about the stored slices and groups, field by field, and in which order |
| SyncProtocol.dfy | handlers, channel, worker, sync routines and mutex as a state machine over any interleaving |
| Provisioning.dfy, ProvisioningTheorems.dfy | a request as a list of events, each subscriber's records as the fold of its own events |
| DbAdapter.dfy, NamedRecords.dfy, Documents.dfy | upsert and delete-one over lists of documents, and documents as records |
| RequestSteps.dfy, RequestData.dfy, ConfigStore.dfy | the class `Database` with every writing handler, and the facts its proofs use |
| SubscriberContents.dfy | what a subscriber's documents say about its group and slice, field by field |
| PartialUpdates.dfy | what a top-level `$set` keeps of the stored record |
| Inventory.dfy, StoreTheorems.dfy | gNB and UPF requests; what the handlers leave behind |
| Accounts.dfy | accounts, guards and tokens |

Conventions. Map iteration order, the order in which the store lists documents, the document it
picks among several matches and the result of an unstable sort are all left open. `Database.reliable`
says that no write, session or commit fails and no reported read fails; without it any of them may.
`Database.transactions` says whether the server offers sessions. An `Unread` value lists the reads
that fail silently in a request: the handlers log these and go on, so success does not exclude them.
`Database.Valid` is the invariant of the store: one document per key in each collection, at most one
AM document without a PLMN per subscriber and then no other, unique group and slice names; the
constructor establishes it and every handler keeps it, failed ones included.

## What turned out different from what one would expect

Each point names a concrete case and the result that says exactly when it happens.

* A device group rate that overflows 64 bits is clamped only if the wrapped product is negative:
  18446744074 Gbps is stored as 290448384 bit/s (`Bitrate.PostedRateCanWrap`,
  `Bitrate.PostedRateSaturatesIff`).
* Two PLMNs that give the same text "mcc:mnc" are merged in the PLMN view, and which one survives
  depends on the order of the slices (`ViewTheorems.ColonConfuses`,
  `ViewTheorems.PlmnViewDeterminedIff`).
* Two spellings of one SST, "1" and "01", give two tied access-mobility entries
  (`ViewTheorems.RespellingConfuses`, `ViewTheorems.AmViewDeterminedIff`).
* Slices of one PLMN and S-NSSAI, or rules of one precedence and name in a slice, tie in the
  policy-control view, also when the rules differ in nothing but the endpoint
  (`ViewTheorems.SharedSlotConfuses`, `ViewTheorems.SharedRuleNameConfuses`,
  `ViewTheorems.PolicyViewDeterminedIff`).
* Storing a new group and then the slice that lists it does not always leave the same records as the
  other order: a subscriber that also sits in a group listed later, or in a group the slice drops,
  ends differently (`ProvisioningTheorems.OrdersCanDiffer`,
  `ProvisioningTheorems.GroupAndSliceCommuteIff`).
* A group DELETE succeeds although the group's record cannot be read, and then leaves the records of
  its subscribers in place (`StoreTheorems.DeletedGroupKeepsItsSubscriber`,
  `StoreTheorems.DeletionClearsIff`). So does a slice DELETE if the slice or a group it lists cannot
  be read (`StoreTheorems.DeletedSliceKeepsItsSubscriber`, `StoreTheorems.SliceDeletionClearsIff`).
* A group without IP domains is passed over when its slice is stored but provisioned, with no DNN,
  when the group is stored; and a DNN without QoS stops the slice only
  (`StoreTheorems.EmptyGroupsAreTreatedDifferently`, `StoreTheorems.SilentDnnStopsTheSliceOnly`,
  `StoreTheorems.TwoPathsAgreeIff`).
* A slice with an unparsable SST is stored before the request is refused with 400
  (`PartialUpdates.RefusedSliceIsStored`, `PartialUpdates.StoringChangesNothingIff`,
  `ConfigStore.Database.HandleNetworkSlicePost`).
* A top-level `$set` of a record with omitted empty fields keeps the stored ones: a slice cannot lose
  its last filtering rule (`PartialUpdates.LastRuleStays`, `PartialUpdates.PostedSliceIsStoredIff`), a
  group cannot lose its last IP domain or MSISDN, its site or its IP domain name
  (`PartialUpdates.LastDomainStays`, `PartialUpdates.SiteStays`,
  `PartialUpdates.PostedGroupIsStoredIff`), and GPSIs stay (`PartialUpdates.OldGpsiStays`,
  `PartialUpdates.PostedGpsisAreStoredIff`). Because a group's subscribers are provisioned from what
  was posted, their DNNs can differ from those of the stored group (`PartialUpdates.DnnsCanDiffer`,
  `PartialUpdates.ProvisionedDnnsAreStoredIff`).
* POST of a subscriber succeeds although its authentication record exists, as soon as its AM
  documents have been cleaned up (`StoreTheorems.SubscriberIsCreatedTwice`,
  `ConfigStore.Database.PostSubscriberByID`).
* A gNB or UPF request that fails at a slice leaves the slices stored before it changed, even in a
  session (`Inventory.FailedPutChangesSlices`, `Inventory.StoppedUnchangedIff`).

## Model

| member | source | states |
|---|---|---|
| SyncProtocol.Convergence | backend/nfconfig/service.go:105-202 | in every interleaving, once no trigger is pending, no routine is live and shutdown has not begun, all six views are the projection of the current database, provided its newest version was committed by a request that answered a watched write with 2xx |
| SyncProtocol.AnsweredWriteShows | backend/nfconfig/service.go:105-202 | over every run: if the request of the last write came in on a watched route with POST, PUT, DELETE or PATCH and was answered with a status from 200 to 299, a quiet last state shows exactly the content of that write in all six views |
| SyncProtocol.AnsweredWriteCanShow | backend/webui_service/webui_init.go:158-177 | from every initial state, for each of the four methods and each 2xx status, there is a run in which such a write is on view in the quiet last state |
| SyncProtocol.ReturnTriggersIff | backend/webui_service/webui_init.go:158-177 | answering a request leaves a trigger to be sent, for each version it wrote, if and only if the route is watched, the method is POST, PUT, DELETE or PATCH and the status divided by 100 is 2 |
| SyncProtocol.EveryRunCanConverge | backend/nfconfig/service.go:105-202 | from every reachable state before shutdown the system can reach such a quiet state without any new request, so neither the full channel nor the mutex can block it for good |
| SyncProtocol.EveryFairScheduleConverges | backend/nfconfig/service.go:105-202 | every infinite schedule with finitely many requests, writes and failed reads in which some step is always taken later while an internal one is enabled comes to rest for good, with all content committed; if the newest version triggered, the six views at rest are its projection |
| SyncProtocol.SomeProgress | backend/nfconfig/service.go:105-151 | in every reachable state that is not quiet some internal step is enabled, so neither a full channel nor the mutex blocks for good |
| SyncProtocol.SettlingStepIsNearer | backend/nfconfig/service.go:105-151 | every step but a new request, a write, the shutdown and a failed read commits nothing, keeps all triggers and strictly lessens the work left |
| SyncProtocol.QuietViewsAreFresh | backend/webui_service/webui_init.go:158-177 | once quiet, every view is at least as new as every write whose trigger was sent, whichever write was last |
| SyncProtocol.EveryTriggerStartsARoutine | backend/nfconfig/service.go:105-130 | over every run no trigger is lost or merged: the triggers sent are the routines started and the one that may wait in the channel |
| SyncProtocol.OnlyTheNewestGoesOn | backend/nfconfig/service.go:105-130 | over every run a routine is cancelled if and only if a newer one was started or the worker has returned |
| SyncProtocol.StoppedWorkerStartsNothing | backend/nfconfig/service.go:105-130 | once the worker has returned no routine starts |
| SyncProtocol.UntriggeredWriteStaysUnseen | backend/webui_service/webui_init.go:158-177 | each of these conditions is needed: a write whose request misses one leaves a quiet state that still shows the old content |
| SyncProtocol.MutualExclusion | backend/nfconfig/service.go:132-151 | over every run at most one routine is between Lock and Unlock, and it is the one the mutex records |
| SyncProtocol.UnlockedViewsAreOneSnapshot | backend/nfconfig/service.go:153-202 | whenever the lock is free all six views come from one read of the slices and one read of the groups no older |
| SyncProtocol.VersionsNeverGoBack | backend/nfconfig/service.go:105-202 | no field ever returns to an earlier version of the slices or the groups, even when an older or cancelled routine runs after a newer one |
| SyncProtocol.FailedReadsAreInvisible | backend/nfconfig/service.go:132-202 | from Lock through any number of failed reads and retries no view changes |
| SyncProtocol.FailedReadStartsOver | backend/nfconfig/service.go:132-151 | after a failed read of either collection a routine waits three seconds and reads the slices again before it comes to the groups |
| InMemory.NFConfigServer.SyncInMemoryConfig | backend/nfconfig/service.go:153-202 | a sync fails exactly when a read fails and then publishes nothing new; otherwise the six fields are a projection of the two reads |
| InMemory.InMemoryConfig.SyncPlmn | backend/nfconfig/config.go:67-90 | the PLMN field is a PLMN view of the slices |
| InMemory.InMemoryConfig.SyncPlmnSnssai | backend/nfconfig/config.go:92-165 | the PLMN-SNSSAI field is a view grouping the parsable slice ids by PLMN, sorted |
| InMemory.InMemoryConfig.SyncAccessAndMobility | backend/nfconfig/config.go:169-230 | the access-mobility field is a view with merged TACs per raw (PLMN, slice id) |
| InMemory.InMemoryConfig.SyncSessionManagement | backend/nfconfig/config.go:232-352 | the session field lists each slice with a parsable SST with its IP domains, gNBs and UPF, in order |
| InMemory.InMemoryConfig.SyncPolicyControl | backend/nfconfig/config.go:354-508 | the policy field is a policy-control view of the slices and groups, whose entries ViewContents.PolicyViewShows describes |
| InMemory.InMemoryConfig.SyncImsiQos | backend/nfconfig/config.go:510-557 | the QoS field is a QoS index of the groups, sorted, with an entry for every group and DNN with QoS and a traffic class; ViewTheorems.QosAnswerHolds says what an entry holds |
| InMemory.InMemoryConfig.GetImsiQosConfig | backend/nfconfig/handlers.go:43-59 | the handler trims the prefix "imsi-" and its loop answers with the first entry of the index for that DNN and IMSI, and with nothing when there is none |
| ViewTheorems.PlmnViewDeterminedIff | backend/nfconfig/config.go:67-90 | the PLMN view is the same for every reordering of the stored slices and every sort if and only if no two PLMNs share their "mcc:mnc" text |
| ViewTheorems.PlmnViewDetermined | backend/nfconfig/config.go:67-90 | then it depends on nothing but the set of slices |
| ViewTheorems.NoColonDistinguishes | backend/nfconfig/config.go:67-90 | that is so when no MCC contains ':' |
| ViewTheorems.ColonConfuses | backend/nfconfig/config.go:67-90 | for two differently named slices with PLMNs ("1:2", "3") and ("1", "2:3") the two orders publish two different views |
| ViewTheorems.PlmnViewIsAllPlmns | backend/nfconfig/config.go:67-90 | the view is then the strictly increasing list of exactly the PLMNs of the slices |
| ViewTheorems.PlmnSnssaiViewDetermined | backend/nfconfig/config.go:92-165 | the PLMN-SNSSAI view depends on nothing but the set of slices, for all inputs |
| ViewTheorems.AmViewDeterminedIff | backend/nfconfig/config.go:169-230 | the access-mobility view is the same for every reordering of the stored slices, of the map and of ties if and only if slice ids that parse to one S-NSSAI in one PLMN carry the same TACs |
| ViewTheorems.RespellingConfuses | backend/nfconfig/config.go:169-230 | two differently named slices in one PLMN with SSTs "1" and "01" and TACs 1 and 2 allow two different views of one listing |
| ViewTheorems.OneSpellingDetermines | backend/nfconfig/config.go:169-230 | that is so when no two different SST texts in one PLMN with the same SD parse to one value |
| ViewTheorems.TacMergeConservation | backend/nfconfig/config.go:169-230 | entries and raw (PLMN, slice id) keys with a parsable SST correspond one to one, and each TAC list is strictly increasing and is exactly the TACs of all gNBs of all slices with that key |
| ViewTheorems.SessionViewDetermined | backend/nfconfig/config.go:232-352 | slices with different names are published in one order only, whatever order the store lists them in |
| ViewTheorems.PolicyViewDeterminedIff | backend/nfconfig/config.go:354-508 | the policy-control view is the same for every reordering of the slices and every sort if and only if no slice has two rules of one precedence and name that are published differently, flow included, and slices of one PLMN and S-NSSAI have the same DNNs and rules, repetitions included |
| ViewTheorems.SharedSlotConfuses | backend/nfconfig/config.go:354-399 | two slices of one PLMN and S-NSSAI, one with the default rule and one with its own, allow two different views of one listing |
| ViewTheorems.SharedRuleNameConfuses | backend/nfconfig/config.go:382-470 | one slice with two rules of one name and priority that differ only in their endpoint allows two different views |
| ViewTheorems.CrossViewAgreement | backend/nfconfig/config.go:67-399 | four views contain exactly the (PLMN, S-NSSAI) pairs of the slices whose SST parses, and each such PLMN is in the PLMN view when no two PLMNs are confused |
| ViewTheorems.DnnAgreement | backend/nfconfig/config.go:275-298 | a slice's policy DNN list is the sorted permutation, multiplicities included, of the DNNs of its session IP domains, and both entries are published |
| ViewTheorems.QosLookupRefinesSearch | backend/nfconfig/config.go:510-557 | the lookup succeeds exactly when a direct search of the groups finds a matching IP domain with QoS and a traffic class, and answers with one of the values found |
| ViewTheorems.QosAnswerHolds | backend/nfconfig/config.go:510-557 | the answer is the profile of a stored IP domain of that DNN in a group that holds the IMSI: its QCI and ARP, and its uplink and downlink, each read back cut to whole units |
| ViewTheorems.QosAnswerDeterminedIff | backend/nfconfig/config.go:510-557 | the answer is the same for every map order and sort if and only if the direct search finds at most one value |
| ViewContents.PolicyViewShows | backend/nfconfig/config.go:354-508 | one entry for every slice whose SST can be read, repetitions included; its rules are those of the slice one for one, each with name, precedence, status (disabled exactly for the action deny), QCI, ARP, rates that are left out at 0 and otherwise read back cut to whole units, and the flow text; without rules exactly the default rule; its DNNs those of the groups |
| ViewContents.SessionViewShows | backend/nfconfig/config.go:232-352 | one entry for every such slice, with name, PLMN, S-NSSAI, the IP domains in the order of the groups field by field, the UPF name and port if they are usable, and the sorted gNB names |
| ViewContents.DomainsOfGroups | backend/nfconfig/config.go:275-298 | the IP domains of a slice are those of its groups, group after group, and a group that is not stored has none |
| ViewContents.ViewsAreInOrder | backend/nfconfig/config.go:67-557 | each view is increasing: by MCC, MNC, SST (the one without SD first) and SD, by slice name, or by DNN |
| ViewContents.ParsedSnssai | backend/nfconfig/config.go:104-115 | an SST of decimal digits with or without a sign parses if and only if it fits 64 bits, to its value modulo 2^32, and an empty SD is none |
| ViewContents.ParsedOnly | backend/nfconfig/config.go:104-115 | nothing else parses |
| ViewContents.PrintedInt | backend/nfconfig/config.go:169-230 | a TAC or a port is printed in decimal, with a sign exactly if it is negative, and reads back |
| ViewContents.DecodedSlices | backend/nfconfig/service.go:157-170 | documents that do not decode are passed over, the others are read in order |
| ViewContents.DecodedGroups | backend/nfconfig/service.go:172-192 | so are groups without a name, and a later document of a name replaces an earlier one |
| Bitrate.WrapIs | configapi/device_group_helpers.go:134-148 | 64-bit arithmetic adds a multiple of 2^64 |
| Bitrate.UnitFactorIs | configapi/device_group_helpers.go:134-148 | a unit counts 1000, 10^6 or 10^9 if and only if it is kbps, mbps or gbps in any mix of capitals, and 1 otherwise |
| Bitrate.PostedRateBelowTwoTo64 | configapi/device_group_helpers.go:78-98 | a posted rate becomes min(v*k, 2^63-1) when v*k < 2^64 |
| Bitrate.PostedRateSaturatesIff | configapi/device_group_helpers.go:86-96 | it becomes min(v*k, 2^63-1) if and only if v*k fits 63 bits or the wrapped product is negative |
| Bitrate.PostedRateCanWrap | configapi/device_group_helpers.go:86-96 | a concrete rate that is stored as a small one |
| Bitrate.RuleRateSaturates | configapi/slice_helpers.go:115-138 | an application rate becomes min(v*k, 2^31-1) for every non-negative int32, and 2^31-1 for every negative one |
| Bitrate.NormalizeApplicationFilteringRules | configapi/slice_helpers.go:115-131 | every rule of the array has its two rates converted in place and nothing else changed |
| Bitrate.NormalizedRuleIs | configapi/slice_helpers.go:115-138 | each rate of a rule becomes its own posted rate in bit/s, at most 2^31-1, and nothing else changes |
| Bitrate.NormalizeDomains | configapi/device_group_helpers.go:78-98 | every IP domain with QoS has its two rates converted in place and nothing else changed |
| Bitrate.NormalizedDomainIs | configapi/device_group_helpers.go:78-98 | each rate of an IP domain becomes its own posted rate in bit/s, at most 2^63-1 while the product is below 2^64, and nothing else changes |
| Bitrate.PrintedForm | configapi/slice_helpers.go:533-550 | the printed rate is the truncated count of the largest unit that fits, a space and the unit |
| Bitrate.ReadBackIs | configapi/slice_helpers.go:533-550 | reading the print back with the posted-rate conversion gives the rate cut down to whole units |
| Bitrate.PrintedRateBounds | configapi/slice_helpers.go:533-550 | the value read back is at most v, misses it by less than one unit, is more than half of it, is v itself exactly on whole multiples and below 1000, and prints the same again |
| Bitrate.PrintedRateMonotone | configapi/slice_helpers.go:533-550 | the value read back is monotone in the rate |
| Bitrate.AggregateQoS | configapi/slice_helpers.go:625-675 | the accumulator loop computes the fold of the combine operation |
| Bitrate.AggregateConcat | configapi/slice_helpers.go:625-675 | aggregation maps concatenation to the combine operation |
| Bitrate.AggregatePermutation | configapi/slice_helpers.go:625-675 | both rates and the least QCI do not depend on the order of the profiles |
| Bitrate.AggregateKeepsFirstLeastQci | configapi/slice_helpers.go:658-667 | the class kept is the first one that attains the least QCI, and there is none only if no profile has one |
| Bitrate.AggregateKeepsFirstUnit | configapi/slice_helpers.go:653-656 | the unit kept is the first non-empty one |
| Bitrate.AggregateTotalExact | configapi/slice_helpers.go:387 | the wrapped sum cast to uint64 is the exact total whenever inputs are non-negative and the total is below 2^64 |
| Provisioning.EachUeByItself | configapi/slice_helpers.go:198-307 | a subscriber's records after any request are the fold of its own events alone |
| Provisioning.OthersUntouched | configapi/slice_helpers.go:198-307 | a request leaves alone every subscriber it has no event for |
| Provisioning.FlattenedProfiles | configapi/slice_helpers.go:240-261 | walking the DNN map in any order collects exactly the group's profiles, multiplicities included |
| Provisioning.FlattenedPostedProfiles | configapi/device_group_helpers.go:194-207 | so does the group path's own map |
| Provisioning.TwoPathsOneMap | configapi/device_group_helpers.go:194-199 | the two DNN maps are equal when every DNN aggregates to a profile with a traffic class |
| ProvisioningTheorems.StoredSliceProvisions | configapi/slice_helpers.go:198-331 | after a successful slice store every IMSI with an authentication record that a listed group with an IP domain holds, and no removed group lists, has all five documents under the new PLMN, taken from the last such group |
| ProvisioningTheorems.PayloadMeaning | configapi/slice_helpers.go:239-261 | the DNNs provisioned are exactly those of the group's IP domains, and each DNN's 5QI is the minimum QCI of its profiles and is attained |
| SubscriberContents.StoredSliceShows | configapi/slice_helpers.go:309-526 | under the conditions of StoredSliceProvisions the five documents hold, under MCC followed by MNC: the slice's SST (modulo 2^32) and SD, the sums of the uplinks and of the downlinks over all IP domains of the group, and for exactly the DNNs with a traffic class their own sums and least QCI; a total prints modulo 2^64 and below 2^63 reads back cut to whole units |
| SubscriberContents.PostedGroupShows | configapi/device_group_helpers.go:170-245 | after a successful POST of a listed group so do the documents of each of its authorised IMSIs |
| SubscriberContents.SliceDocuments | configapi/slice_helpers.go:376-427 | a successful POST of a slice leaves exactly one AM and one SM document of such a subscriber under the PLMN, with these contents |
| SubscriberContents.GroupDocuments | configapi/slice_helpers.go:376-427 | so does a successful POST of a group that some slice lists, whichever of those slices is found |
| SubscriberContents.SnssaiHexIs | configapi/slice_helpers.go:528-531 | an SST is written in lower-case hexadecimal digits of its value, two for eight bits and more above, with a sign if negative, followed by the SD |
| ProvisioningTheorems.SliceLosesGroup | configapi/slice_helpers.go:216-235 | because cleanup follows provisioning, a slice that drops a group leaves the group's IMSIs without policies and without documents under its PLMN, and adds none under another |
| ProvisioningTheorems.GroupRemovalClears | configapi/device_group_helpers.go:44-73 | after a group leaves all slices that list it, in any order, none of its IMSIs keeps a policy or a document under the PLMN of any of them |
| ProvisioningTheorems.GroupLosesImsi | configapi/device_group_helpers.go:230-238 | storing a group without one of its IMSIs clears that IMSI under the listing slice's PLMN and adds nothing elsewhere |
| ProvisioningTheorems.OrderIrrelevantIff | configapi/slice_helpers.go:309-331 | for one subscriber, provisioning by a new group before or after the slice's later groups and cleanup gives the same records if and only if the group has no event for it, or there is no cleanup and the later groups end with the same payload and GPSI |
| ProvisioningTheorems.GroupAndSliceCommuteIff | configapi/device_group_helpers.go:170-245 | POST group then POST slice and POST slice then POST group, both successful, store the same groups and slices, and the same five collections if and only if that holds for every subscriber |
| ProvisioningTheorems.OrdersCanDiffer | configapi/slice_helpers.go:198-307 | a concrete store, group and slice for which both orders succeed and leave different records |
| ProvisioningTheorems.DisjointGroupsCommute | configapi/device_group_helpers.go:170-245 | both orders, successful, leave the same groups, slices and five collections when no provisioned IMSI of the new group is provisioned by a group listed later or sits in a removed group |
| DbAdapter.PostOne | dbadapter/db_adapter.go:433-469 | an upsert updates some one match or, if there is none, appends; a failed one changes nothing |
| DbAdapter.DeleteOne | dbadapter/db_adapter.go:471-477 | a delete removes some one match, if any; a failed one changes nothing |
| DbAdapter.PostHolds | dbadapter/db_adapter.go:433-450 | in a collection with one document per key an upsert sets exactly that key's document, whichever branch it takes |
| DbAdapter.DeleteHolds | dbadapter/db_adapter.go:471-477 | in such a collection one delete-one removes every match and keeps the rest in order |
| Documents.EveryAmRun | configapi/slice_helpers.go:376-406 | over every run of subscriber create, update and delete, provisioning and cleanup, whatever the store picks: a subscriber has one AM document without a PLMN and no other, or documents with pairwise distinct PLMNs, and the `$or` filter never matches two |
| Documents.CleanupTakesTheLastDocument | configapi/subscriber_helpers.go:124-168 | a subscriber that is created, provisioned and cleaned up has no AM document left |
| Documents.AmDataPosted | configapi/slice_helpers.go:376-406 | the `$or` upsert reuses the document without a PLMN, or that of the same PLMN, or adds one, and changes exactly this subscriber's record |
| Documents.AmTouched | configapi/subscriber_helpers.go:34-79 | creating or updating a subscriber adds the basic AM document only when it has none |
| Documents.AmDropped | configapi/subscriber_helpers.go:81-99 | deleting a subscriber removes exactly one of its AM documents, any one, if it has one |
| ConfigStore.Database.constructor | dbadapter/db_adapter.go:95-103 | an empty store satisfies the invariant |
| ConfigStore.Database.UpdateAmPolicyData | configapi/slice_helpers.go:333-346 | the subscriber has its AM policy document and no other record changes |
| ConfigStore.Database.UpdateSmPolicyData | configapi/slice_helpers.go:348-374 | the subscriber's SM policy names the S-NSSAI and every DNN of the map |
| ConfigStore.Database.UpdateAmProvisionedData | configapi/slice_helpers.go:376-406 | the subscriber's AM data under the PLMN holds the S-NSSAI, the aggregated rates and the new GPSI or the stored ones |
| ConfigStore.Database.BuildSmProvisionedDataDocument | configapi/slice_helpers.go:429-477 | a document is built if and only if every DNN aggregates to a profile with a traffic class, and then has every DNN's configuration, for any map order; SubscriberContents.StoredSliceShows says what a configuration holds |
| ConfigStore.Database.UpdateSmProvisionedData | configapi/slice_helpers.go:408-427 | the subscriber's SM data under the PLMN is that document, whose contents SubscriberContents.SliceDocuments describes; without one nothing is written and an error is returned |
| ConfigStore.Database.UpdateSmfSelectionProvisionedData | configapi/slice_helpers.go:479-526 | the subscriber's SMF selection under the PLMN lists the DNNs in increasing order, for any map order |
| ConfigStore.Database.UpdatePolicyAndProvisionedData | configapi/slice_helpers.go:309-331 | success is the provisioning event for this subscriber; a failure changes no other subscriber |
| ConfigStore.Database.ProcessDeviceGroup | configapi/slice_helpers.go:239-287 | success is the events of the group's authorised IMSIs in order, and comes exactly when nothing fails and every provisioned DNN has a traffic class |
| ConfigStore.Database.RemoveSubscriberEntriesRelatedToDeviceGroups | configapi/subscriber_helpers.go:124-168 | success removes everything for the IMSI and PLMN and nothing else; in a session a failure changes nothing |
| ConfigStore.Database.CleanupDeviceGroups | configapi/slice_helpers.go:289-307 | success is the removal, under the previous PLMN, of the IMSIs of every dropped group |
| ConfigStore.Database.SyncSubscribersOnSliceCreateOrUpdate | configapi/slice_helpers.go:198-237 | 400 if and only if the SST is missing or does not parse, and then nothing changes; success is the slice's events, provisioning before cleanup |
| ConfigStore.Database.HandleNetworkSlicePost | configapi/slice_helpers.go:156-177 | the slice is stored before its subscribers are provisioned, also when the request is then refused |
| ConfigStore.Database.NetworkSlicePostHelper | configapi/slice_helpers.go:38-63 | storing a request under a name succeeds exactly with the outcome of PostSlice on the normalized slice |
| ConfigStore.Database.HandleNetworkSliceDelete | configapi/slice_helpers.go:585-606 | success removes exactly that slice and is the cleanup of all groups it listed, if it could be read; only subscribers of these groups change |
| ConfigStore.Database.FindSliceByDeviceGroup | configapi/device_group_helpers.go:276-286 | the answer is some slice that lists the group, and none only if there is none or the slices cannot be read |
| ConfigStore.Database.SyncDeviceGroupSubscriber | configapi/device_group_helpers.go:170-245 | success is provisioning of the group's IMSIs then removal of those it lost; a failure for one IMSI does not stop the others |
| ConfigStore.Database.DeviceGroupPostHelper | configapi/device_group_helpers.go:75-116 | storing a group under a name succeeds exactly with the outcome of PostGroup on the normalized group |
| ConfigStore.Database.ChangeSlices | configapi/device_group_helpers.go:44-73 | success leaves every matching slice changed and every other one as it was, in place, and the events of storing them again; a failure leaves each slice either as it was or changed |
| ConfigStore.Database.DeviceGroupDeleteHelper | configapi/device_group_helpers.go:33-42 | success takes the group out of every slice, with the events of doing so, and only then removes its record |
| ConfigStore.Database.SubscriberAuthenticationDataStore | configapi/subscriber_helpers.go:34-79 | the authentication record and, if there is none, an AM document; in a session both or neither |
| ConfigStore.Database.SubscriberAuthenticationDataDelete | configapi/subscriber_helpers.go:81-99 | the authentication record and one AM document go; in a session both or neither |
| ConfigStore.Database.PostSubscriberByID | configapi/api_subscriber_config.go:449-515 | on a reliable store the answer and the new store are those of PostSubscriber: 409 if and only if the subscriber has an AM document; success leaves it with exactly the basic one |
| ConfigStore.Database.PutSubscriberByID | configapi/api_subscriber_config.go:528-580 | 404 if and only if it has none; success changes no AM document |
| ConfigStore.Database.UpdateSubscriberInDeviceGroups | configapi/subscriber_helpers.go:170-200 | success leaves no group with the IMSI, every other IMSI in its order, and as records the events of storing the groups again in the order found, each under the slice chosen for it: the other subscribers are provisioned again, the IMSI has no policies and no documents under these slices; only subscribers that share a group with it change |
| ConfigStore.Database.DeleteSubscriberByID | configapi/api_subscriber_config.go:599-624 | the same events, then one AM document and the authentication record are gone |
| RequestData.SortAndCompact | configapi/slice_helpers.go:93-94 | the group names of a request are stored strictly increasing, as a set |
| RequestData.NormalizedSliceIs | configapi/slice_helpers.go:38-138 | the slice stored for a request has the name of the URL, the posted groups strictly increasing, the rules with these rates, and otherwise what was posted |
| RequestData.NormalizedGroupIs | configapi/device_group_helpers.go:75-116 | the group stored for a request has the name of the URL, the IP domains with these rates, and otherwise what was posted |
| RequestData.GetDeletedDeviceGroupsList | configapi/slice_helpers.go:608-623 | the names of the previous version that the new one lacks, in their order |
| RequestData.GetDeletedImsisList | configapi/subscriber_helpers.go:101-122 | the IMSIs of the previous version that the new one lacks, in their order |
| RequestData.ImsiOfIs | configapi/api_subscriber_config.go:599-624 | the IMSI of a path parameter is what follows "imsi-", or the whole parameter |
| Inventory.Inventory.ExecuteGnbTransaction | configapi/api_inventory.go:170-287 | success stores or removes the gNB and propagates to the slices; with a session a failure leaves the gNB inventory unchanged, and any failure leaves exactly the first n matching slices, in the order found, changed |
| Inventory.Inventory.ExecuteUpfTransaction | configapi/api_inventory.go:434-546 | the same for the UPF inventory |
| Inventory.Inventory.UpdateInventoryInNetworkSlices | configapi/api_inventory.go:548-567 | success changes exactly the slices that match and provisions their subscribers again; a failure stops after the first n of them, on a reliable store at one that is stored and cannot be provisioned |
| Inventory.GnbInventoryHolds | configapi/api_inventory.go:170-287 | after a PUT the gNB inventory holds the name with exactly the new TAC, after a DELETE not at all; every other entry is as before |
| Inventory.UpfInventoryHolds | configapi/api_inventory.go:434-546 | the same for the UPF inventory and the port |
| Inventory.StoppedUnchangedIff | configapi/api_inventory.go:548-567 | after a failure the slices are as before if and only if n is 0 or each of the n changes is the identity |
| Inventory.GnbNothingToChangeIff | configapi/api_inventory.go:177-250 | for a matching slice the change is the identity if and only if it is a PUT and every entry of the name has the TAC already |
| Inventory.UpfNothingToChangeIff | configapi/api_inventory.go:444-509 | for a matching slice the change is the identity if and only if it is a PUT and the slice has exactly that name and port |
| Inventory.FailedPutChangesSlices | configapi/api_inventory.go:252-287 | two slices for which a failed PUT leaves the first changed (the second write fails) or both (the second is refused), and for which no failure on a reliable store leaves the slices as they were |
| Inventory.TacPropagates | configapi/api_inventory.go:177-193 | after a gNB PUT every entry of that name in every slice has the new TAC; all other entries, fields and slices are as before |
| Inventory.GnbDisappears | configapi/api_inventory.go:236-250 | after a gNB DELETE no slice has an entry of that name and the rest keeps its order |
| Inventory.UpfPropagates | configapi/api_inventory.go:444-509 | after a UPF PUT each slice whose "upf-name" is the host has exactly that "upf-name" and the new "upf-port", after a DELETE no UPF; all else is as before |
| PartialUpdates.PostedSliceIsStoredIff | configapi/slice_helpers.go:156-177 | after a successful POST of a slice the stored slice is the posted one if and only if that has a rule or none was stored |
| PartialUpdates.LastRuleStays | configapi/slice_helpers.go:156-164 | posting a slice without rules over itself with one leaves the store as it was |
| PartialUpdates.PostedGroupIsStoredIff | configapi/device_group_helpers.go:150-168 | after a successful POST of a group the stored group is the posted one if and only if its MSISDNs are given or none were stored, and likewise its IP domains, its site and its IP domain name |
| PartialUpdates.LastDomainStays | configapi/device_group_helpers.go:150-160 | posting a group without MSISDNs, IP domains, site and IP domain name over one that differs from it in some of these leaves the stored group as it was |
| PartialUpdates.SiteStays | configapi/device_group_helpers.go:150-160 | a concrete group that keeps its site when it is posted without one |
| PartialUpdates.PostedGpsisAreStoredIff | configapi/slice_helpers.go:376-406 | the AM data has the GPSIs of the request if and only if it gives one or the reused document has none |
| PartialUpdates.OldGpsiStays | configapi/slice_helpers.go:376-406 | provisioning with a GPSI and then without one leaves the old one |
| PartialUpdates.ProvisionedDnnsAreStoredIff | configapi/device_group_helpers.go:150-245 | after a successful POST of a listed group each authorised IMSI holds the posted DNNs that have QoS, and these are the DNNs of the stored group if and only if every posted DNN has QoS and the stored IP domains are the posted ones |
| PartialUpdates.DnnsCanDiffer | configapi/device_group_helpers.go:150-245 | a concrete store whose group keeps a DNN while its subscriber is provisioned with none |
| PartialUpdates.StoringChangesNothingIff | configapi/slice_helpers.go:156-177 | a refused slice, stored all the same, leaves the slices as before if and only if it was stored already, up to omitted rules |
| PartialUpdates.RefusedSliceIsStored | configapi/slice_helpers.go:156-211 | a slice with SST "x" is refused and stored |
| StoreTheorems.HeldPayloadIsStored | configapi/slice_helpers.go:333-526 | a provisioned subscriber has exactly one document per collection for the payload, with one DNN set in SM policy, SM data and SMF selection |
| StoreTheorems.RemovalIsCompleteAndFramed | configapi/subscriber_helpers.go:124-168 | what removal leaves is every document of other subscribers, the subscriber's own under other PLMNs in the three PLMN-keyed collections, and nothing more |
| StoreTheorems.DeletedGroupIsListedNowhere | configapi/device_group_helpers.go:33-73 | after a group DELETE the record is gone, no slice lists the group, the other names keep their order and nothing else of a slice changes |
| StoreTheorems.DeletedGroupLeavesNothing | configapi/device_group_helpers.go:33-73 | and every IMSI it held has no AM or SM policy and no AM, SM or SMF selection document under the PLMN of any slice that listed it |
| StoreTheorems.UnreadGroupIsNotCleanedUp | configapi/slice_helpers.go:289-296 | taking an unreadable group out of any slices produces no cleanup event: the events are exactly the provisioning of the groups that remain |
| StoreTheorems.UnreadGroupKeepsItsRecords | configapi/device_group_helpers.go:33-73 | a successful DELETE of an unreadable group leaves each subscriber with the fold of those events, and its AM policy if it had one |
| StoreTheorems.DeletionClearsIff | configapi/device_group_helpers.go:33-73 | every successful DELETE of a stored group leaves nothing of its subscribers, whatever was recorded, if and only if its record could be read, or no slice lists it, or it has no IMSIs, or no DELETE of it can succeed |
| StoreTheorems.DeletedGroupKeepsItsSubscriber | configapi/device_group_helpers.go:33-73 | a concrete store in which a successful DELETE leaves a subscriber's policies and documents |
| StoreTheorems.DeletedSliceLeavesNothing | configapi/slice_helpers.go:585-606 | after a slice DELETE exactly the other slices remain, and every IMSI of a readable group it listed has no policy and nothing under its PLMN, and nothing new under another |
| StoreTheorems.SliceDeletionClearsIff | configapi/slice_helpers.go:585-606 | every successful DELETE of a stored slice leaves nothing of its groups' subscribers, whatever was recorded, if and only if it has none, or the slice could be read and each of them is in a listed group that could be read |
| StoreTheorems.DeletedSliceKeepsItsSubscriber | configapi/slice_helpers.go:585-606 | a concrete store in which a successful DELETE of a slice leaves a subscriber's policies and documents |
| StoreTheorems.SubscriberIsInNoGroup | configapi/subscriber_helpers.go:170-200 | after a subscriber left its groups no group has the IMSI, every other IMSI keeps its order, and nothing else of a group changes |
| StoreTheorems.EmptyGroupsAreTreatedDifferently | configapi/slice_helpers.go:224-227 | the two provisioning paths part on a group without IP domains |
| StoreTheorems.TwoPathsAgreeIff | configapi/slice_helpers.go:224-261 | for a stored group the two paths have the same events if and only if it has an IP domain or no authorised IMSI, and with an IP domain the slice path goes through if and only if the group path does and every DNN has a domain with QoS or no IMSI is authorised |
| StoreTheorems.SilentDnnStopsTheSliceOnly | configapi/slice_helpers.go:240-261 | a concrete store with a DNN without QoS: its slice cannot be posted again, its group can |
| StoreTheorems.SubscriberIsCreatedTwice | configapi/api_subscriber_config.go:449-515 | a subscriber that is created, provisioned and cleaned up still has its authentication record and can be created again; before the cleanup that is refused |
| Accounts.AccountStore.CreateUserAccount | configapi/handlers_user_account.go:137-187 | 201 exactly for a non-empty name, a valid password and a new name when nothing fails, 400 exactly for a bad name or password, 409 for a duplicate; success adds exactly that account, the first one as admin |
| Accounts.AccountStore.DeleteUserAccount | configapi/handlers_user_account.go:203-227 | 200 exactly for a stored plain user when nothing fails, 404 for a missing one, 400 for the admin; success removes exactly that account |
| Accounts.AccountStore.ChangeUserAccountPassword | configapi/handlers_user_account.go:244-285 | 200 exactly for a valid password and a stored account when nothing fails; success changes exactly its password |
| Accounts.AccountStore.LogIn | backend/auth/handlers_login.go:49-117 | 200 and a token exactly when the account exists, its password is the one given and nothing fails; 401 for a missing account or a wrong password; the token carries the role the account has at that moment |
| Accounts.OneAdmin | configapi/handlers_user_account.go:137-293 | at every point of every run from an empty store there is no account or exactly one admin |
| Accounts.AdminStays | configapi/handlers_user_account.go:203-227 | the admin is never removed or demoted, and nobody else becomes admin |
| Accounts.RoleNeverChanges | configapi/handlers_user_account.go:244-285 | a username has one role for ever, also across deletion and creation |
| Accounts.TokensCarryCurrentRole | backend/auth/handlers_login.go:67-97 | every token ever issued carries the current role of its account, if the account exists |
| Accounts.TokensNeedThePassword | backend/auth/handlers_login.go:49-117 | over every run a token that was not in circulation comes from a login with the name and the current password of its account |
| Accounts.RightPasswordIsEnough | backend/auth/handlers_login.go:49-117 | over every run a login with the current password of an account, without faults, gives its token |
| Accounts.PasswordIsTheLastOneSet | configapi/handlers_user_account.go:137-293 | at every point of every run an account exists if and only if the last request about it that went through was not its deletion, and its password is the one that request gave |
| Accounts.ValidPasswordIff | configapi/handlers_user_account.go:295-303 | a password is valid if and only if it has eight characters, an upper-case letter, a lower-case letter and a digit or special character |
| Accounts.ChangesAreAuthorised | backend/auth/middleware.go:55-120 | once an account exists only the admin creates and deletes accounts, and a password changes only at the request of the admin or of its owner |
| Accounts.GuardAnswers | backend/auth/middleware.go:55-120 | without a token of the server a guarded request gets 401, with one of another plain user 403, and nothing changes |

## Left out

- HTTP routing, CORS, JSON binding, status bodies, request ids, Swagger and UI files.
- The MongoDB driver, connections, indexes and retries; each store operation is one atomic step.
- JWT signing and expiry, bcrypt, TLS, and the regular expressions for names, hosts and passwords; a password is valid or not.
- Registered-UE and PDU-session proxying, Pebble notifications and metrics.
- Constant document fields (SSC modes, fixed ARP values, subscription categories) and document fields no modelled code reads.
- The server setting sdfComp is one unspecified constant; the results hold for both values.
- Lower-casing of non-ASCII letters in a bitrate unit: only 'A' to 'Z' are lowered.
- Strings are sequences of characters that stand for bytes.
- A filtering rule without a traffic class: slice validation refuses it before it is stored.
- POST of a gNB or UPF: a unique-index insert by the driver; POST of a gNB without a TAC crashes when a slice already names it.
- Writing through a pointer in the update closures of the inventory: one method, `ChangeSlices`, stands for the loops of updateDeviceGroupInNetworkSlices and updateInventoryInNetworkSlices and takes the update as a function on slice values.
- A second copy of the subscriber write: create and update differ only in which upsert call they use, so one method, `SubscriberAuthenticationDataStore`, stands for both.
- A panic on an unreadable previous slice is an error that stops the request.
- In one request a silent read of one kind (authentication records, a group by name, the previous version, the slice list) either fails throughout or not at all.
- MSISDNs are paired with IMSIs by position and are not moved when an IMSI is removed; nothing is claimed about them afterwards.
- Concurrency between configuration handlers: the lock of configapi serialises only parts of them, and the model runs one handler at a time. The protocol of the sync worker is modelled with full interleaving.
- The worker loop and the retry loop as code: they are steps of the state machine in `SyncProtocol`, because what matters is how they interleave.
- Parallel creation of the first account and data races of readers on the published fields: each field assignment is one step.
