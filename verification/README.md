# Skall: a verified model

Skall is a peer-to-peer messenger written in Go. This project models the parts of it that carry
their own state, and proves what they promise over every input, every run and every interleaving.

| file | what it models |
|---|---|
| `XorMetric.dfy` | the Kademlia distance of two 32-byte hashes |
| `ProviderHistory.dfy`, `Dht.dfy` | the DHT manager: provider table, closest-peer selection, peer discovery |
| `Connection.dfy` | the connection manager with its background dials |
| `Discovery.dfy`, `Pipeline.dfy` | mDNS scans, the bounded event queue, the connector, and all of them interleaved with the connection manager |
| `Decimal.dfy` | decimal numbers, for endpoints and times |
| `SeenFilter.dfy`, `StringOrder.dfy`, `Groups.dfy` | the in-memory group manager and its duplicate filters |
| `Store.dfy`, `GroupService.dfy`, `GroupRuns.dfy` | the group tables, the service calls that write to memory and store, the restart rebuild, and calls that overlap |
| `JsonText.dfy`, `Timestamp.dfy`, `Protocol.dfy`, `Framing.dfy` | JSON strings, times and their text, messages and their limits, length-prefixed frames |
| `Fanout.dfy` | event subscribers |
| `Router.dfy`, `Broadcast.dfy` | the TCP server: clients, registry and write queues; a broadcast among other goroutines |
| `Backoff.dfy`, `Bootstrap.dfy` | exponential backoff, the retry loop, the bootstrap maintenance loop |

How it is built. Each object whose methods update it is a class; its methods are proved equal to
pure step functions, and the main results are lemmas about runs of those steps. A region under a
mutex is one step, and a call of several such regions is several steps between which others may
stand: a group call has a memory half and a store half, the connector receives an event and then
handles it, a broadcast visits its recipients one by one. Go's map iteration is an arbitrary choice,
so every result covers every order. Channels are bounded sequences, time is an integer, SQL tables are maps keyed by their primary keys
with one atomic step per statement. SHA-256 is an arbitrary function to 32 bytes. Clock readings,
random factors, replies, delivery results and the luck of a disk write are parameters.

Where the proofs found more than the code's own comments say:

- A stream cut just behind a frame header reads as a clean end of input, not as a truncated frame
  (`Framing.CutStreamReadsPrefix`, `Framing.HeaderAloneReadsAsEnd`).
- The group calls of the service may be made concurrently (`internal/chat/service.go:11`), but nothing
  covers their two writes: a join and a leave that overlap can both succeed and leave memory without
  a member whom a restart brings back (`GroupRuns.OverlapPartsMemoryFromStore`). Memory and store
  agree exactly if the memory halves and the store writes of a group end the same way
  (`GroupRuns.AgreementIff`); calls on one group that come one at a time always do
  (`GroupRuns.RunKeepsAgreement`).
- A time outside the years 0 to 9999, or in a zone a day or more off, passes `Validate` and cannot be
  encoded (`Protocol.MarshalsIff`, `Protocol.ValidatedButUnsendable`). The seconds of a zone's offset
  are lost on the way, and with them the instant (`Timestamp.WholeMinutesIff`).
- Invalid UTF-8 is sent and does not come back equal (`Protocol.RoundTripIff`); replaced, it may be too
  long, and then the reader refuses what the writer accepted and stops reading
  (`Protocol.AcceptedIff`, `Protocol.InvalidBodyIsRefused`, `Framing.RefusedMessageEndsStream`).
- A dial abandoned by dropping its peer while it is out decides the state of the entry made by the next
  connect (`Connection.AbandonedDialIsMisattributed`). Dials and entries match throughout a run exactly
  if no drop ever meets a connecting peer (`Connection.MatchedThroughoutIff`), and then each entry shows
  its own dial's outcome.
- A client removed between setting its peer ID and registering stays in the registry
  (`Router.LateRegistrationIsStale`, with exact conditions in `Router.NameKeepsRegistryIff` and
  `Router.RegisterKeepsRegistryIff`).
- A change met while the discovery queue is full is lost to the connection manager
  (`Pipeline.OverflowBreaksAgreement`), as the first scan of more than 32 peers can show
  (`Pipeline.ThirtyThirdIsLost`). A failed store write parts memory from the store exactly if the
  manager had accepted the call (`GroupService.AgreementKeptIff`).
- The comment at `internal/groups/group.go:25-29` allows twice the cap between evictions; the code
  never holds more than 10,001 IDs and 10,000 after each operation (`SeenFilter.PruneIsExact`).
- Truncation to whole nanoseconds takes some delays below minus 20 percent (`Backoff.JitterExactIff`).

## Model

| member | source | states |
|---|---|---|
| XorMetric.XorKeyDistance | internal/network/p2p/dht.go:235-244 | the loop over 32 bytes computes the metric the laws below are about |
| XorMetric.XorIsBitwise | internal/network/p2p/dht.go:239-241 | in every place the result has a bit exactly if the two operands differ there |
| XorMetric.OrderIsLexicographic | internal/network/p2p/dht.go:239-243 | comparing distances as integers is comparing the xored bytes lexicographically; equal integers mean equal bytes |
| XorMetric.ZeroIffEqual | internal/network/p2p/dht.go:235-244 | distance zero exactly for equal hashes |
| XorMetric.Symmetric | internal/network/p2p/dht.go:235-244 | the distance does not depend on direction |
| XorMetric.Triangle | internal/network/p2p/dht.go:235-244 | a detour is never shorter |
| XorMetric.Unidirectional | internal/network/p2p/dht.go:235-244 | two hashes at one distance from a third are the same hash |
| XorMetric.EveryDistanceIsTaken | internal/network/p2p/dht.go:235-244 | each 32-byte value is the distance of some hash, namely its xor with the first |
| Dht.DHTManager.ClosestPeers | internal/network/p2p/dht.go:200-233 | min(count, table size) different entries, nearest to the target first, no omitted peer strictly closer to it; nothing for a count of zero or less |
| Dht.TargetComesFirst | internal/network/p2p/dht.go:212-222 | a target that is in the table is the first answer when the hashes differ |
| Dht.ClosestIsUnique | internal/network/p2p/dht.go:212-222 | when the peers' hashes differ, any two permitted answers are the same list, so map order cannot show |
| Dht.SortedPrefixIsClosest | internal/network/p2p/dht.go:220-231 | cutting a sorted listing of the table at count gives a permitted answer |
| Dht.SortByDistance | internal/network/p2p/dht.go:220-222 | the result is ascending and holds the same elements, each once |
| Dht.DHTManager.Distances | internal/network/p2p/dht.go:212-218 | one entry for every table entry, with its distance from the target, in any map order |
| Dht.DHTManager.AddPeer | internal/network/p2p/dht.go:164-171 | never lists the local peer or a peer without addresses |
| Dht.DHTManager.RemovePeer | internal/network/p2p/dht.go:174-187 | the peer leaves the routing table and every namespace, and nothing else changes |
| Dht.DHTManager.StoreProvider | internal/network/p2p/dht.go:542-558 | accepted advertisements replace the peer's record in that namespace only; others change nothing |
| Dht.DHTManager.GetLocalProviders | internal/network/p2p/dht.go:560-579 | lists exactly the unexpired records, each once, and deletes exactly the expired ones of that namespace |
| ProviderHistory.TableIsFaithful | internal/network/p2p/dht.go:542-579 | at every point of a timely run the table has forgotten nothing but expired records and invented nothing |
| ProviderHistory.LookupMatchesHistory | internal/network/p2p/dht.go:174-187 | a lookup answers with a peer exactly if its latest accepted advertisement since its last removal has not expired, with that advertisement's addresses |
| ProviderHistory.LookupFindsSpared | internal/network/p2p/dht.go:560-579 | for every run and any clock: a lookup finds a peer exactly if its latest accepted advertisement has not expired and no earlier lookup in the namespace found it expired |
| ProviderHistory.BackwardClockMissesProvider | internal/network/p2p/dht.go:569-577 | a run of that kind, with a clock order that readings under the lock do not produce: an earlier reading misses a live provider |
| Dht.EmitLocal | internal/network/p2p/dht.go:305-322 | stops with exactly limit peers if there are that many others, else emits them all |
| Dht.MergeReply | internal/network/p2p/dht.go:347-360 | one reply adds exactly its addressed peers not emitted yet and not the local one, each as the reply first offers it |
| Dht.MergeProviders | internal/network/p2p/dht.go:305-363 | for every order of replies: each peer once, never self, only with addresses; exactly the union when local providers stay under the limit, else exactly limit local ones; local providers as given, any other as first offered |
| Dht.DHTManager.FindPeers | internal/network/p2p/dht.go:287-367 | the same, with the unexpired records of the provider table as the local providers, each emitted with its own record, the configured namespace for an empty one and 20 for a limit of zero or less |
| Connection.Manager.Connect | internal/network/connection/manager.go:70-106 | does nothing for a busy peer, else replaces its entry and starts a dial; fails exactly on an empty ID or endpoint |
| Connection.Manager.FinishDial | internal/network/connection/manager.go:108-121 | a returned dial marks whatever entry its peer has by then |
| Connection.Manager.MarkState | internal/network/connection/manager.go:123-132 | changes the state of a tracked peer only |
| Connection.Manager.Disconnect | internal/network/connection/manager.go:134-152 | stops tracking the peer and leaves its dial running |
| Connection.Manager.Forget | internal/network/connection/manager.go:174-178 | stops tracking the peer and leaves its dial running |
| Connection.ConnectingHasItsDial | internal/network/connection/manager.go:70-152 | in every interleaving a connecting entry has its own dial outstanding |
| Connection.NoneLeftConnecting | internal/network/connection/manager.go:108-132 | once all dials have returned every tracked peer is connected or failed |
| Connection.DialsStayMatchedIff | internal/network/connection/manager.go:134-152 | a step keeps every outstanding dial that of a connecting entry exactly if it does not drop a connecting peer |
| Connection.MatchedThroughoutIff | internal/network/connection/manager.go:70-152 | over whole runs: dials and entries match at every point exactly if no drop met a connecting peer |
| Connection.OneDialPerConnectingPeer | internal/network/connection/manager.go:80-105 | in such runs: exactly one dial while connecting, none otherwise |
| Connection.StateIsOwnOutcome | internal/network/connection/manager.go:108-132 | in such runs each entry's state is the outcome of the dial it started |
| Connection.OutcomeIsFinal | internal/network/connection/manager.go:104-121 | a dial that has returned is never outstanding again |
| Connection.DialsAreCounted | internal/network/connection/manager.go:80-105 | over every run the dials of a peer are one for each drop while tracked, one for each connect that found it failed, and one if it is tracked now: a connecting or connected peer is never dialed again and a failed one always is |
| Connection.AbandonedDialIsMisattributed | internal/network/connection/manager.go:123-131 | a run outside the condition: two dials for one peer, and the abandoned one decides the state |
| Discovery.MDNSDiscovery.ApplyDiff | internal/network/discovery/mdns.go:199-236 | afterwards the entries are those the scan asks for, old ones with their old information, reached by visiting both maps in some order |
| Discovery.MDNSDiscovery.AddNew | internal/network/discovery/mdns.go:214-223 | for every map order each scanned key is visited once and new ones enter the entries |
| Discovery.MDNSDiscovery.RemoveGone | internal/network/discovery/mdns.go:225-234 | for every map order exactly the entries missing from the scan leave |
| Discovery.SeenSetIsValid | internal/network/discovery/mdns.go:203-212 | what a scan asks for: exactly the valid peers other than the local one |
| Discovery.LastResultCounts | internal/network/discovery/mdns.go:203-212 | of several results for one peer the last valid one counts |
| Decimal.DigitsReadBack | internal/network/discovery/types.go:37 | the digits of a number read back as it, without leading zeros |
| Discovery.EndpointReadsBack | internal/network/discovery/types.go:36-38 | an endpoint splits at its last colon into the host, in brackets if it holds a colon, and the digits of the port |
| Discovery.EndpointsDiffer | internal/network/discovery/types.go:36-38 | endpoints are equal exactly for equal hosts and ports |
| Pipeline.Connector.HandleEvent | internal/network/discovery/connector.go:64-82 | an event drives the manager as its replay does; invalid peers are skipped |
| Pipeline.Connector.Drain | internal/network/discovery/connector.go:49-62 | empties the queue, handling the events first in first out |
| Pipeline.OldestIsHandled | internal/network/discovery/connector.go:49-62 | receiving and handling hands the oldest outstanding event to the manager and leaves the rest |
| Pipeline.ScanCompletes | internal/network/discovery/mdns.go:199-236 | a scan runs to its end in every order of visiting the two maps |
| Pipeline.QueueCatchesUp | internal/network/discovery/mdns.go:199-236 | in every interleaving without overflow, replaying the event in the connector's hand and then the queued ones from the manager's current state gives exactly the entries' peers and endpoints |
| Pipeline.DrainedTracksLastScan | internal/network/discovery/connector.go:49-82 | with the queue and the connector's hand empty after a scan, the manager tracks exactly the valid peers of that scan other than the local one |
| Pipeline.EventsAlternate | internal/network/discovery/mdns.go:214-234 | two successive events of one peer are of different kinds |
| Pipeline.FirstEventAdds | internal/network/discovery/mdns.go:214-223 | a peer's first event adds it |
| Pipeline.OverflowBreaksAgreement | internal/network/discovery/mdns.go:219-222 | a change keeps the agreement exactly if the 32-slot queue has room for its event |
| Pipeline.ThirtyThirdIsLost | internal/network/discovery/mdns.go:199-236 | every first scan of more than 32 valid peers, visited in any order with nothing received, runs without overflow up to the 33rd and breaks the agreement there |
| Pipeline.CrowdOverflows | internal/network/discovery/mdns.go:219-222 | such a run from the start exists |
| SeenFilter.PruneSeen | internal/groups/group.go:352-368 | for every map order: nothing is evicted up to the cap, else exactly half |
| SeenFilter.PruneIsExact | internal/groups/group.go:350-368 | a prune happens at 10,001 IDs, removes 5,000 and leaves 5,001 |
| SeenFilter.SeenIsBounded | internal/groups/group.go:25-29 | at most 10,000 IDs after every operation |
| SeenFilter.InsertionsAreConserved | internal/groups/group.go:350-368 | fresh insertions are the current size plus 5,000 for each prune |
| SeenFilter.PruneCount | internal/groups/group.go:350-368 | the number of prunes follows from the number of insertions alone; evictions never outnumber insertions |
| SeenFilter.EachIdIsConserved | internal/groups/group.go:292-298 | for each ID, insertions are evictions plus one if it is present |
| SeenFilter.AcceptedOncePlusEvictions | internal/groups/group.go:286-299 | an ID is accepted by routing at most once plus the number of its evictions |
| SeenFilter.AllRememberedIffUnderCap | internal/groups/group.go:350-368 | every recorded ID is remembered exactly while at most 10,000 different ones were recorded |
| SeenFilter.LaterRouteRejected | internal/groups/group.go:292-295 | up to that number each later route of a recorded ID is rejected, whatever the eviction order |
| SeenFilter.AcceptedExactlyOnce | internal/groups/group.go:292-299 | up to that number an ID is accepted exactly once if its first record is a route, and never otherwise |
| Groups.ReachableIsConsistent | internal/groups/group.go:84-100 | in every reachable state groups and filters have the same keys, so routing never meets a missing filter |
| Groups.FilterFollowsHistory | internal/groups/group.go:275-348 | in every run of the manager a group's filter is a run of the filter model since the group's creation |
| Groups.RecordedMessageIsDuplicate | internal/groups/group.go:286-295 | under the cap a message is a duplicate exactly if it was recorded since the group's creation |
| Groups.AcceptedIffFresh | internal/groups/group.go:276-299 | routing accepts exactly if nothing is blank, the group exists and the message is not in its filter |
| Groups.RecordingExtends | internal/groups/group.go:286-348 | every route or mark of a message in an existing group, with nothing blank, is in the group's history |
| Groups.AcceptedExactlyOnce | internal/groups/group.go:286-299 | in every run of the manager, under the cap, a group accepts each message exactly once if it was routed there before it was marked there, and never otherwise |
| Groups.GroupManager.CreateGroup | internal/groups/group.go:74-101 | succeeds exactly for a new ID with nothing blank, and makes an empty group and filter; error and state for each way to fail |
| Groups.GroupManager.AddMember | internal/groups/group.go:118-147 | error and new state; an existing member is an error and changes nothing |
| Groups.GroupManager.RemoveMember | internal/groups/group.go:157-179 | error and new state; an absent member is an error and changes nothing |
| Groups.GroupManager.DeleteGroup | internal/groups/group.go:183-197 | the group and its filter go together |
| Groups.GroupManager.ViewMembers | internal/groups/group.go:199-217 | the members in strictly ascending order |
| Groups.GroupManager.AcceptMessage | internal/groups/group.go:276-299 | accepts exactly a fresh message with nothing blank in an existing group and records it, less what the prune may evict; every other one changes nothing |
| Groups.GroupManager.DeliverMessage | internal/groups/group.go:301-323 | strictly ascending list of exactly the members that are connected, not the sender, and accepted the delivery |
| Groups.GroupManager.MarkMessageSeen | internal/groups/group.go:326-348 | records the message in an existing group and keeps the bound |
| Groups.GroupManager.IsDuplicate | internal/groups/group.go:370-386 | answers as routing the message would |
| StringOrder.AscendingIsUnique | internal/groups/group.go:215 | a strictly ascending list is determined by its elements, so the sorted member list is one fixed list |
| StringOrder.SortSet | internal/groups/group.go:211-216 | the elements of a map's key set, for every map order, in strictly ascending order |
| StringOrder.LessIff | internal/groups/group.go:215 | a string comes first exactly if it is a proper prefix or smaller in the first character that differs |
| Store.Store.UpsertGroup | internal/storage/store.go:387-414 | inserts or renames, keeping the creation time of an existing row; a failure changes nothing |
| Store.Store.SetGroupMembership | internal/storage/store.go:416-456 | inserts or updates the row, refusing a group the tables do not have |
| Store.Store.DeleteGroup | internal/storage/store.go:509-527 | the group goes with its memberships; an unknown group is an error that changes nothing |
| Store.Store.ListGroups | internal/storage/store.go:458-480 | every group once, in ascending order |
| Store.Store.ListGroupMembers | internal/storage/store.go:529-561 | exactly the rows of the group, each once, by ascending peer ID |
| GroupService.LoadFromStore | internal/groups/persistence.go:20-76 | rebuilds the groups missing in memory with their active members, and leaves the others alone |
| GroupService.LoadEachIsLoadSome | internal/groups/persistence.go:26-73 | the rebuild does not depend on the order of the rows |
| GroupService.LoadTwiceIsLoadOnce | internal/groups/persistence.go:15-16 | a second load changes nothing |
| GroupService.ToleratedIff | internal/chat/p2p_service.go:307-373 | which calls go on to the store: a create of a new group, a join or leave of an existing one, any delete, with nothing blank |
| GroupService.P2PService.Create | internal/chat/p2p_service.go:307-316 | run alone: both writes, in this order, with the outcome of each failure |
| GroupService.P2PService.Join | internal/chat/p2p_service.go:323-339 | run alone: both writes; an existing member is written again |
| GroupService.P2PService.Leave | internal/chat/p2p_service.go:344-358 | run alone: both writes; an absent member still gets an inactive row |
| GroupService.P2PService.Delete | internal/chat/p2p_service.go:362-373 | run alone: both deletions; succeeds exactly if the store had the group and the disk worked |
| GroupService.MemoryEffect | internal/groups/group.go:74-197 | a tolerated call has on its group in memory the effect one function describes, and none on other groups |
| GroupService.StoreEffect | internal/storage/store.go:387-527 | its statement has that same effect on the group a restart would rebuild |
| GroupService.SuccessKeepsAgreement | internal/chat/p2p_service.go:307-373 | a call that runs alone and whose write goes through keeps name, creation time and members of each group equal in memory and store |
| GroupService.AgreementKeptIff | internal/chat/p2p_service.go:307-373 | a call that runs alone keeps the agreement exactly if its write goes through or the manager refuses it |
| GroupService.RestartRebuilds | internal/groups/persistence.go:10-19 | memory and store agree exactly if a restart would rebuild the groups and members of memory |
| GroupService.RestartUndoesFailedCall | internal/chat/p2p_service.go:307-373 | after a failed write a restart brings back the memory from before the call |
| GroupService.DeleteUndoesCreate | internal/chat/p2p_service.go:307-373 | deleting a group just created restores memory and tables |
| GroupService.LeaveUndoesJoin | internal/chat/p2p_service.go:318-358 | leaving restores memory and the active rows; the row stays, inactive |
| GroupService.FirstTimesAreKept | internal/storage/store.go:401-447 | no call changes the creation time of a group row or the joining time of a membership row |
| GroupRuns.AloneIsDo | internal/chat/p2p_service.go:307-373 | the two halves of a call with nothing in between are the call that runs alone |
| GroupRuns.RunKeepsForeignKey | internal/storage/store.go:112-121 | no run, whatever overlaps and whatever writes fail, leaves a membership without its group |
| GroupRuns.RunIsTold | internal/chat/p2p_service.go:307-373 | in every interleaving memory is what the calls make of the start in the order of their memory halves, and the store what they make of it in the order of the writes that took effect |
| GroupRuns.StoryEnds | internal/chat/p2p_service.go:307-373 | what a list of calls makes of a group is decided by the last call on its life, name and each membership, and the last that founded it |
| GroupRuns.AgreementIff | internal/chat/p2p_service.go:307-373 | in every interleaving, with calls under way and writes lost, memory and store agree on a group exactly if both orders end the same way for it |
| GroupRuns.OverlapPartsMemoryFromStore | internal/chat/p2p_service.go:323-358 | for every group and every peer not in it: a join and a leave that overlap and write in reverse both succeed, and a restart brings back the member who left |
| GroupRuns.RunKeepsAgreement | internal/chat/p2p_service.go:305-373 | if the calls on a group come one at a time and their writes go through, memory and store agree on it whenever none is under way, whatever other groups' calls do |
| GroupRuns.RestartAfterRun | internal/groups/persistence.go:10-19 | if that holds of every group, a restart after all calls have returned rebuilds the groups and members of memory |
| JsonText.EscapeGrowsSixfold | internal/protocol/message.go:88-93 | escaping makes a string at most six times as long and never shorter |
| JsonText.EscapedIsSafe | internal/protocol/message.go:88-93 | an escaped string holds no control character and none of the three that could be markup |
| JsonText.PlainIsUnescaped | internal/protocol/message.go:88-93 | a printable ASCII string without quotes, backslashes and those three is written as it is |
| JsonText.RuneIsRecognized | internal/protocol/message.go:88-104 | the one UTF-8 sequence of every code point that is no surrogate is recognized |
| JsonText.RecognizedIsRune | internal/protocol/message.go:88-104 | and nothing else is |
| JsonText.EscapedReadsBack | internal/protocol/message.go:88-104 | a quoted string reads back with its invalid bytes replaced, whatever follows it |
| JsonText.CleanIffValid | internal/protocol/message.go:88-104 | that replacement changes exactly the strings that are not valid UTF-8 |
| Timestamp.ZeroIff | internal/protocol/message.go:66-68 | in UTC exactly midnight at the start of year 1 is the zero instant that validation refuses |
| Timestamp.EncodesIff | internal/protocol/message.go:88-93 | a time has a JSON text, by the checks made on the text, exactly if its year is 0 to 9999 and its zone less than a day off |
| Timestamp.EncodedReadsBack | internal/protocol/message.go:88-104 | the text reads back as the same date, time and nanosecond, with the zone cut to whole minutes |
| Timestamp.WholeMinutesIff | internal/protocol/message.go:88-104 | the instant survives that exactly if the zone has no seconds |
| Timestamp.TextIs | internal/protocol/message.go:88-93 | where year, month, day, hour, minute and second stand in the text, what separates them and what their digits mean |
| Timestamp.TailIs | internal/protocol/message.go:88-93 | the same of the decimals of the second, without trailing zeros, and of the zone |
| Protocol.BlankIff | internal/protocol/message.go:60-62 | ASCII text is blank exactly if it holds nothing but white space |
| Protocol.FaultsInOrder | internal/protocol/message.go:56-86 | which fault validation reports, in order, and that nothing else is one |
| Protocol.TextInFull | internal/protocol/message.go:37-46 | the text of a message whose strings need no escape: every key in order with its value, the two optional ones left out if empty |
| Protocol.MarshalsIff | internal/protocol/message.go:56-93 | a message marshals exactly if it validates, its year is 0 to 9999 and its zone less than a day off; the encoder refuses the other validated ones |
| Protocol.ValidatedButUnsendable | internal/protocol/message.go:56-93 | a validated message for each of the two that does not marshal |
| Protocol.MarshalledSize | internal/protocol/message.go:12-24 | the field limits keep every marshalled message between 1 and 404,400 bytes |
| Protocol.EncodedReadsBack | internal/protocol/message.go:88-104 | decoding an encoded message gives it back with invalid bytes replaced and the zone in whole minutes, with or without the optional fields |
| Protocol.RoundTripIff | internal/protocol/message.go:88-104 | a message survives the round trip exactly if its strings are valid UTF-8 and its zone has no seconds |
| Protocol.CleanKeepsBlank | internal/protocol/message.go:60-62 | replacing invalid bytes makes no field blank and fills none |
| Protocol.AcceptedIff | internal/protocol/message.go:56-104 | what was marshalled is accepted at the other end exactly if it keeps the length limits with its invalid bytes replaced and its time cut to the minute of its zone is not zero |
| Protocol.InvalidBodyIsRefused | internal/protocol/message.go:82-84 | a body of n invalid bytes marshals up to 65,536 of them, is accepted up to a third of that, and never comes back equal |
| Framing.HeaderReadsBack | internal/protocol/framing.go:46-47 | the 32-bit header gives the length back exactly for lengths below 2^32 |
| Framing.HeaderIsBigEndian | internal/protocol/framing.go:46-47 | its bytes are the length's, most significant first |
| Framing.HeaderDecides | internal/protocol/framing.go:61-69 | reading ends at a header of zero or of more than 1,048,576, whatever follows, and at no other for that reason |
| Framing.FrameWriter.WriteAll | internal/protocol/framing.go:79-88 | for every way the writes are split: all the data on success, a prefix on failure |
| Framing.FrameWriter.WriteMessage | internal/protocol/framing.go:40-53 | the whole frame on success, nothing of an invalid message, a prefix of the frame on failure |
| Framing.FrameWriter.WriteQueue | internal/network/client.go:87-107 | a write loop puts the frames of its messages on the stream in order and stops at the first failure, with a part of that frame |
| Framing.FrameReader.ReadMessage | internal/protocol/framing.go:55-77 | answer and remaining input on every input: end of input, truncation, empty, oversized and undecodable frames |
| Framing.StreamThen | internal/protocol/framing.go:55-77 | a written stream followed by anything reads as its messages, then as what follows |
| Framing.StreamReadsBack | internal/protocol/framing.go:40-77 | for every codec that reads its own payloads, a written stream reads back as the same list, then the end of input |
| Framing.CutStreamReadsPrefix | internal/protocol/framing.go:55-77 | a stream cut anywhere yields its whole frames, then an error that is a plain end exactly between frames or just behind a header |
| Framing.PayloadsEncode | internal/protocol/framing.go:10-18 | the protocol's codec is such a codec: its payloads are never empty, oversized or misread |
| Framing.MessagesReadBack | internal/protocol/framing.go:40-77 | every list of messages that survive the round trip reads back as itself |
| Framing.WrittenReadsBack | internal/protocol/framing.go:40-77 | from what a write loop left, however its writes went, a reader gets what was sent and at most one message more; all of them and the end of input if all were sent |
| Framing.RefusedMessageEndsStream | internal/network/client.go:56-67 | a message the other end refuses is where its reading ends, whatever was written after it |
| Framing.HeaderAloneReadsAsEnd | internal/protocol/framing.go:72-74 | a lone header cannot be told from a clean end |
| Framing.FramesAppend | internal/protocol/framing.go:40-53 | writing one more message extends the stream of the list by its frame |
| Fanout.StepStaysValid | internal/chat/p2p_service.go:375-427 | registered channels stay different, open and at most 16 through every step, so none is closed twice or sent to after closing |
| Fanout.ReceivedInOrder | internal/chat/p2p_service.go:524-534 | received plus buffered events are an in-order subsequence of those published while registered, short by exactly the publishes that met a full buffer |
| Fanout.CompleteIffNeverFull | internal/chat/p2p_service.go:524-534 | a subscriber gets everything exactly if its 64-slot buffer was never full at a publish |
| Fanout.ClosedOnlyDrains | internal/chat/p2p_service.go:406-427 | a closed channel stays closed and unregistered, and only drains |
| Fanout.SubscribeRegisters | internal/chat/p2p_service.go:375-402 | below the cap a new open channel is registered last; at it a closed one is made, or none; nothing else changes |
| Fanout.UnsubscribeTakesOut | internal/chat/p2p_service.go:406-416 | the channel is registered no more and closed, with what waits in it; every other channel and registration stays |
| Fanout.CloseTakesAllOut | internal/chat/p2p_service.go:418-427 | every registered channel is taken out and closed, and no other is touched |
| Fanout.LeavingEndsOffers | internal/chat/p2p_service.go:406-427 | over runs: after unsubscribing or closing no step offers the channel another event |
| Fanout.Subscribers.Subscribe | internal/chat/p2p_service.go:375-389 | a new registered channel, or at the cap a closed one |
| Fanout.Subscribers.SubscribeE | internal/chat/p2p_service.go:393-402 | a new registered channel, or at the cap an error |
| Fanout.Subscribers.Unsubscribe | internal/chat/p2p_service.go:406-416 | takes out and closes the channel if registered; otherwise changes nothing |
| Fanout.Subscribers.Publish | internal/chat/p2p_service.go:524-534 | every registered channel with room gets the event at its end |
| Fanout.Subscribers.Close | internal/chat/p2p_service.go:418-427 | closes every registered channel once |
| Router.LimitHolds | internal/network/tcp.go:104-116 | with one accept loop never more than 256 clients, although check and insertion are separate |
| Router.BroadcastReachesAll | internal/network/tcp.go:223-227 | in every order each recipient gets the message once at its end, or is unlisted, unregistered under its current ID and closed; nobody else changes |
| Router.Server.Broadcast | internal/network/tcp.go:213-228 | that effect, on all listed clients but the sender, of a broadcast that runs alone |
| Broadcast.CastIsServerRun | internal/network/tcp.go:213-228 | a broadcast among other goroutines makes a run of the server, so the results on all runs hold |
| Broadcast.BroadcastAmongOthers | internal/network/tcp.go:213-228 | in every interleaving a finished broadcast has sent to each client listed at its start but the sender, or that client is unlisted and closed for good; nobody else is touched |
| Broadcast.SentIsQueuedOnce | internal/network/tcp.go:223-227 | sending means that it queued the message for that client exactly once |
| Broadcast.DroppedIffRefused | internal/network/tcp.go:223-227 | a client is dropped exactly if it was closed or its 16 slots were full when its turn came |
| Router.Server.Direct | internal/network/tcp.go:177-211 | a directed message that runs alone has the effect described next |
| Router.DirectedReachesOne | internal/network/tcp.go:177-211 | of all queues only the registered recipient's grows by the message, or the sender's by the notice that it is unknown or removed; only that recipient can be removed |
| Router.NoticesCanBeSent | internal/network/tcp.go:182-210 | a notice about a message goes to its sender and is itself within all limits |
| Router.Server.RouteMessage | internal/network/tcp.go:175-228 | a blank recipient means broadcast; any other is directed, with the notices of the source |
| Router.Server.RemoveClient | internal/network/tcp.go:159-173 | unlisting under the lock, then closing |
| Router.Server.RegisterPeer | internal/network/tcp.go:230-234 | the ID points to its newest holder |
| Router.Server.AddClient | internal/network/tcp.go:153-157 | the admitted client is listed, in a critical section of its own |
| Router.RunStaysValid | internal/network/tcp.go:153-173 | in every run each listed and each registered client has its object |
| Router.Server.Admit | internal/network/tcp.go:104-115 | admits exactly below the limit |
| Router.Server.EnqueueTo | internal/network/client.go:109-120 | appends to an open queue with room, else reports failure and changes nothing |
| Router.EmittedIsPrefix | internal/network/client.go:87-120 | what a writer emitted followed by its queue is what was accepted for it, so emissions are a prefix in order |
| Router.ClosedNeverGrows | internal/network/client.go:109-131 | a closed client stays closed and its queue never grows |
| Router.RegistryHolds | internal/network/client.go:75-80 | if each client joins under one ID while listed, every registry entry points to a listed client with that ID |
| Router.NameKeepsRegistryIff | internal/network/client.go:77 | taking a new ID keeps the registry sound exactly if no other ID of the client is registered |
| Router.RegisterKeepsRegistryIff | internal/network/client.go:79 | registering keeps it sound exactly if the client is still listed under that ID |
| Router.RemoveSparesNewerHolder | internal/network/tcp.go:164-169 | removing a client removes its own registration and never a newer holder's |
| Router.LateRegistrationIsStale | internal/network/client.go:76-80 | a run in which a removal between the two halves of a join leaves a stale entry |
| Backoff.NormalizedIsUsable | internal/network/p2p/backoff.go:51-63 | the defaults make every setting usable and change no usable one |
| Backoff.DelaysAreBounded | internal/network/p2p/backoff.go:93-102 | delays never decrease and stay between the initial delay and the cap |
| Backoff.DelayFollows | internal/network/p2p/backoff.go:93-102 | for any multiplier each delay is the cap, or the one before times the multiplier, truncated |
| Backoff.ClosedForm | internal/network/p2p/backoff.go:93-102 | with a whole multiplier m the k-th delay is initial times m to the k, capped |
| Backoff.GeometricTotal | internal/network/p2p/backoff.go:93-102 | before the cap the delays add up to the geometric closed form |
| Backoff.JitterIsBounded | internal/network/p2p/backoff.go:104-108 | jitter stays within 20 percent, less at most the truncated nanosecond |
| Backoff.JitterExactIff | internal/network/p2p/backoff.go:104-108 | the lower bound is exact for just the delays divisible by five |
| Backoff.Backoff.NextDelay | internal/network/p2p/backoff.go:93-111 | hands out the delay that belongs to the number of attempts since the reset |
| Backoff.Backoff.Sleep | internal/network/p2p/backoff.go:114-128 | refuses exactly at the retry limit |
| Backoff.Retry | internal/network/p2p/backoff.go:132-150 | stops at the first success, limit or cancellation, after at most limit plus one calls |
| Bootstrap.GivesUpIff | internal/network/p2p/bootstrap.go:126-186 | uncancelled, the loop has given up exactly if some tick found all peers lost after limit failed rounds in a row |
| Bootstrap.GivesUpAtLimit | internal/network/p2p/bootstrap.go:161-168 | and it does so at the first such tick |
| Bootstrap.AttemptsAreStreak | internal/network/p2p/bootstrap.go:155-182 | while it runs, its attempts are the failed rounds in a row since the last success |
| Bootstrap.TickDecides | internal/network/p2p/bootstrap.go:137-184 | one tick gives up at the limit, stops if cancelled, resets if a peer is connected or redialed, and else counts one more failed round |
| Bootstrap.UnlimitedNeverGivesUp | internal/network/p2p/backoff.go:85-90 | without a limit it never gives up |
| Bootstrap.BootstrapManager.ProcessTick | internal/network/p2p/bootstrap.go:137-184 | one tick, with both loops over the peers, is one step of the model the results above are about |

## Left out

- libp2p hosts and streams, multiaddresses, zeroconf, Noise, sockets, deadlines and SQLite itself: foreign code behind the tables, queues and dials modelled here.
- The user interface, the command line, configuration, identities and versions.
- White space around identifiers: IDs, names and endpoints are taken as already trimmed; a message's blank fields are modelled.
- Nil receivers, and errors when reading the store: reads succeed.
- Membership times in memory, last-seen and update times, the peers table, display names, summaries and logs: memory and store take these times from different clock readings. A member is its peer ID in memory.
- Stored messages and conversations.
- Cancellation of FindPeers and the time limits on its queries: an unanswered query is a reply without peers.
- XorMetric.XorKeyDistance: starts from the two hashes, since SHA-256 is an arbitrary function here.
- Dht.SortByDistance: stands for the library sort; an insertion sort on sequences, without its in-place swaps.
- Dht.DHTManager.RemovePeer: one step, though the code takes the two table locks one after the other.
- GroupService.P2PService.Create: states the effect of a call that runs alone; calls that overlap are runs of their halves in GroupRuns.
- GroupService.P2PService.Join: the same.
- GroupService.P2PService.Leave: the same.
- GroupService.P2PService.Delete: the same.
- GroupService.LoadFromStore: reads succeed, so the group whose members cannot be read, which the code logs and leaves empty, is not modelled; nor are calls made while the load runs.
- Store.Store.SetGroupMembership: the upsert of the peers table before it is not modelled; if that fails, the write counts as failed.
- Discovery.MDNSDiscovery.ApplyDiff: states its effect while nothing is received; receptions between its sends are covered by the steps of Pipeline.
- Router: connections are numbers and conns holds their objects, so aliasing of connection objects and the connection limit under several accept loops are not modelled; enqueue and close are single steps.
- Router.Server.Broadcast: states the effect of a broadcast that runs alone; Broadcast has the others.
- Router.Server.Direct: its lookup, its send and the removal of the recipient run with nothing in between.
- Fanout: channels are numbers in the same way; waiting receivers are not modelled.
- Protocol.EncodedReadsBack: decoding is modelled for texts in the encoder's own form; other JSON spellings of a message, surrogate escapes and other versions are not.
- Timestamp: a time is its clock reading and the offset of its zone; the zone's name and the monotonic reading are not modelled, nor are other spellings of a time.
- Framing.FrameReader.ReadMessage: the buffering below ReadFull is invisible.
- Backoff: exact real arithmetic in place of floating point, so rounding and overflow of huge delays are not modelled.
- Backoff.Retry: without a retry limit it is given a call at which the operation succeeds or the context ends, as nothing else would end it.
