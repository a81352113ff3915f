# Routing agents for mobile ad-hoc networks: a verified model

The repository holds four ns-2 routing agents: OLSR (RFC 3626), DSDV, AODV (RFC 3561) and the route
discovery of DSR (RFC 4728). This project models the algorithms of each agent in Dafny and proves what
the protocols promise, in most cases over whole runs of a network.

How to check it: `dafny verify dfyconfig.toml`.

## The agents

**OLSR.** `MprSelection` and `MprComputation` model multipoint-relay (MPR) selection: the loops that erase
from the vector they scan, the restart of the outer cursor, and the greedy choice over buckets. Iterators
are indices, `erase` is the removal of one position. `OlsrForwarding` models the duplicate set and default
forwarding, and `MprFlooding` puts both together: a message flooded through MPRs reaches every node of a
connected symmetric network. `RoutingTable` models the layered routing-table calculation and proves that it
computes exactly the shortest advertised paths. `OlsrTopology`, `OlsrLinks` and `OlsrTime` model TC
processing, link sensing with HELLO generation, and the mantissa/exponent time format. `OlsrSensing` says what
HELLOs, timers and failures do to each tuple and that three HELLOs make a link symmetric at both ends.
`OlsrRelays` bounds how far a message travels in a network that loses and delays copies.

**DSDV.** `Dsdv` is the agent: learning from updates, timeouts, waiting packets (`DsdvQueue`), and the making of
an update as bytes (`DsdvCodec`). `DsdvNetwork` runs many agents with updates that may be delayed, lost,
duplicated and reordered. Sequence numbers follow the destination's counter in every run. Next hops are
loop-free in every run in which no packets wait for a route whose finite advert is rejected as stale;
`AdverseFlush` gives a run of seventeen steps, with the default timing, in which that does happen and closes a
loop. The flush of waiting packets ends exactly if the advert is accepted or no own packet waits: an own packet
gets a new TTL and goes back into the queue that is being emptied. An update whose flush never ends has no step
after it. `DsdvEffects` says entry by entry what the operations do, and `DsdvSpread` that routes arrive: periodic
updates along a path give every node of it a route over exactly its hops, whatever the tables held before.

**AODV.** `Aodv` is the agent: requests, replies, errors, link failures, purging and local repair.
`AodvNetwork` runs many agents with arbitrary delivery. In every run a usable route has an even sequence
number that its destination has issued. Routes are loop-free in every run, local repair included, in which no
repair is given up (its timeout never finds the route still under repair) and replies stay below `INFINITY2`
hops; `AodvHops` proves that they do in every network of up to 222 nodes. The condition is exact step by step:
the timeout lowers the rank of a route if and only if it gives a repair up. `AdverseRepair` gives a run of
eleven steps in which that closes a loop. `AodvEffects` says message by message what the handlers do, and
`AodvDiscovery` that discovery works: from every reachable state, a request along a path and the reply that comes
back leave every node of the path with an up route along it. (`RREQ_GRAT_RREP` is undefined, as in the repository.)

**DSR.** `DsrDiscovery` runs agents that send, extend and answer route requests: every path in flight, and
every path a reply reports, is simple and follows links that were heard. `DsrEffects` adds that the target answers,
when a node passes a search on at most once, and that a search along a path finds exactly that path. `DsrBackoff`
is the request rate.

Conventions. Each agent is a class whose methods change its fields as the source does; each method is proved
equal to a function on the agent's state, and the theorems are about those functions; those of the `Effects` modules
and of `OlsrSensing` state the outcome of every operation in terms of the fields alone. Time is a real number
passed to each operation. A network step is a value, a run is a sequence of steps, and a step that is not
enabled does nothing, so theorems about "every sequence of steps" are about every run. A message once sent
stays deliverable, which covers delay, loss, duplication and reordering.

## Where the code differs from its documents

- `degree` (OLSR.cc:3275-3287) counts 2-hop tuples of a neighbour that is not in the neighbour set, so it is 0
  for every neighbour (`DegreeVanishes`); section 8.3.1 of RFC 3626 means another number.
- N2 is not purged of nodes that WILL_ALWAYS neighbours cover (OLSR.cc:691-697), so the selection covers N2
  but need not be minimal. The stray `else` at OLSR.cc:828 is read as empty.
- `seconds_to_emf` truncates where section 18.3 of RFC 3626 rounds up, and codes times below C as C * 17/16
  (`OverstatesBelowC`). Its inner loop at OLSR.cc:3315-3318 never runs.
- The DSDV flush of waiting packets files an advert that was rejected as stale, or never ends (dsdv.cc:788-801,
  1009-1036).
- `local_rt_repair` uses the absolute `rt_req_timeout` as a delay (aodv.cc:416), so a repair is given up later
  than its route asks for.
- With local repair, the assertion at aodv.cc:374 that a route lost with its link is up holds exactly if the
  route is not under repair, and a run reaches a state in which it is (`FlagAssert`, `FlagAssertFails`).
- A DSR node that answers every request (the default) records the number of a late one over a newer one
  (dsragent.cc:770-780), so that it may pass the newer search on again (`LateRequestRepeats`); this takes
  `RequestTable::insert` to overwrite.

## Model

| member | source | states |
|---|---|---|
| MprSelection.EraseVia | OLSR.cc:746-753 | erasing while scanning with a step back removes exactly the tuples of the neighbour behind the cursor, in order, and collects exactly their 2-hop addresses |
| MprSelection.EraseBackups | OLSR.cc:760-773 | the backup loops leave exactly the tuples whose address was not deleted, and the outer cursor is reset exactly if one was erased |
| MprSelection.EraseRound | OLSR.cc:741-773 | one round of phase 3 removes the sole tuple's address and every address the neighbour provides, strictly shrinks N2, and leaves the cursor at the start or on an unchanged prefix |
| MprSelection.CoverSoleProviders | OLSR.cc:702-774 | phase 3 terminates, adds exactly the sole providers, and leaves each 2-hop address with all of its tuples or none and covered |
| MprSelection.SoleMeansAlone | OLSR.cc:702-704 | with distinct 2-hop tuples, the neighbours added are those that are the only provider of some 2-hop address |
| MprSelection.SoleRound | OLSR.cc:741-773 | a round keeps the all-or-covered invariant of the whole phase |
| MprSelection.SoleComplete | OLSR.cc:729-756 | when every address left has two tuples, no sole provider has been missed |
| MprComputation.CountReach | OLSR.cc:786-793 | the inner loop counts the uncovered tuples through a neighbour |
| MprComputation.DegreeVanishes | OLSR.cc:3275-3287 | the degree is 0 exactly for members of the neighbour set and for addresses without 2-hop tuples |
| MprComputation.ChoiceIsGreatest | OLSR.cc:798-834 | the default and R1 choice has the greatest willingness among the neighbours that offer a 2-hop address, and of those offers the most; the degree never decides, so the default rule takes the earliest |
| MprComputation.Buckets | OLSR.cc:783-796 | the set of counts and the map of buckets file each neighbour exactly under its reachability, in order |
| MprComputation.ScanBucket | OLSR.cc:810-833 | scanning a bucket extends the best choice from the buckets seen to this one |
| MprComputation.Choose | OLSR.cc:806-834 | the choice is a maximum, in lexicographic order of the rule's keys, over all neighbours with nonzero reachability, and is missing only if there is none |
| MprComputation.ChooseQolsr | OLSR.cc:1303-1437 | the QOLSR choice, with any tie-break, is a neighbour that reaches the first uncovered address |
| MprComputation.TakeRelay | OLSR.cc:837-854 | taking a relay removes exactly the addresses it provides |
| MprComputation.PickShrinks | OLSR.cc:778-856 | each pick strictly shrinks N2 |
| MprComputation.ChoiceExists | OLSR.cc:778-835 | while N2 is not empty a neighbour with nonzero reachability exists, so the loop never spins |
| MprComputation.CoverGreedily | OLSR.cc:776-856 | phase 4 terminates with N2 empty and adds exactly the neighbours of an admissible sequence of picks |
| MprComputation.GreedyCovers | OLSR.cc:776-856 | every 2-hop address in N2 ends with a provider among the picks |
| MprComputation.CandidateMembers | OLSR.cc:657-662 | N holds exactly the symmetric neighbours that the rule admits |
| MprComputation.SelectionCovers | OLSR.cc:651-857 | for all four rules, each address of N2 has a provider in the MPR set |
| MprComputation.SelectionSound | OLSR.cc:651-857 | each MPR is a symmetric neighbour that is WILL_ALWAYS or provides an address of N2, and never WILL_NEVER |
| MprComputation.AlwaysWillingSelected | OLSR.cc:691-697 | under the default and R1 rules every symmetric neighbour of willingness WILL_ALWAYS is a relay |
| MprComputation.SoleProviderSelected | OLSR.cc:699-774 | under every rule the only provider of an admitted 2-hop address is a relay |
| MprComputation.MprAgent.Gather | OLSR.cc:657-689 | N and N2 are the candidates and the strict 2-hop tuples |
| MprComputation.MprAgent.OlsrMprComputation | OLSR.cc:651-857 | the default and R1 computations leave an MPR set selected by their rule |
| MprComputation.MprAgent.QosMprComputation | OLSR.cc:1098-1437 | the R2 and QOLSR computations do too, for any tie-break |
| OlsrForwarding.Forwarder.ForwardDefault | OLSR.cc:1941-2009 | forwarding updates the duplicate tuple and queues the message as specified |
| OlsrForwarding.Forwarder.RecvOlsr | OLSR.cc:557-620 | a packet's messages are dropped, processed and forwarded as specified, in order |
| OlsrForwarding.ReceiveOnce | OLSR.cc:578-620 | a reception either changes nothing or is the one that creates the duplicate tuple, and then processes and queues at most one copy |
| OlsrForwarding.ReceiveFirst | OLSR.cc:578-620 | a first copy from a symmetric neighbour is processed if it is a TC or MID message, leaves a duplicate tuple for 30 seconds, and is queued, one hop older, exactly if the sender selected the node and the TTL is above 1 |
| OlsrForwarding.ReceiveIgnored | OLSR.cc:571-620 | an expired or own message, a HELLO, one from a sender without a symmetric link, and a repeated copy leave the message state as it was |
| OlsrForwarding.PacketInOrder | OLSR.cc:557-620 | the messages of a packet are received one after the other, none left out |
| OlsrForwarding.AtMostOncePerHolding | OLSR.cc:578-620 | in every run a message is processed and queued at most once plus once per expiry of its duplicate tuple |
| OlsrForwarding.RelayBudget | OLSR.cc:1998-2008 | at one node, copies that arrive with a TTL and hop count of some total are queued with the same total and a TTL of at least 1 |
| OlsrRelays.RunBudgeted | OLSR.cc:578-620 | in every run with loss, delay and changing neighbours, each copy queued or on the air has the originator's TTL as its TTL plus hop count |
| OlsrRelays.FloodBudget | OLSR.cc:1998-2008 | so along any flood a copy on the air has TTL at least 1 and was relayed fewer times than the originator's TTL |
| MprFlooding.SelectionSuffices | OLSR.cc:651-857 | an MPR set that the computation selects from accurate neighbour sets covers the two-hop neighbourhood |
| MprFlooding.FloodInvariant | OLSR.cc:1941-2009 | in every run, under every order of retransmissions, a node holds a duplicate exactly if it heard a transmitter, relays exactly if the first one selected it, and relays once; so there are at most as many transmissions as nodes |
| MprFlooding.TwoHopsReached | OLSR.cc:1976-2008 | once nobody has anything to send, a node two hops from a transmitter has been reached |
| MprFlooding.NoFrontier | OLSR.cc:1976-2008 | then every neighbour of a reached node is reached |
| MprFlooding.FloodReachesAll | OLSR.cc:581-619 | then every node of a connected network is reached |
| RoutingTable.RoutingAgent.RtableDefaultComputation | OLSR.cc:1465-1577 | the computation terminates with exactly the layered table |
| RoutingTable.RoutingAgent.AddNeighbours | OLSR.cc:1473-1501 | the first loop files exactly distance 1 |
| RoutingTable.RoutingAgent.AddTwoHops | OLSR.cc:1508-1533 | the second loop files exactly distance 2 |
| RoutingTable.RoutingAgent.AddLayer | OLSR.cc:1544-1554 | one round files exactly the next distance, and reports whether it added anything |
| RoutingTable.ExactIsShortest | OLSR.cc:1465-1577 | a destination has an entry exactly if an advertised path leads to it; the entry has the length and first hop of such a path, none is shorter, and its interface is that of a live link to the next hop |
| RoutingTable.EmptyAbove | OLSR.cc:1535-1576 | after an empty distance every greater distance is empty, so stopping loses nothing |
| RoutingTable.EmptyRound | OLSR.cc:1574-1576 | a round that adds nothing leaves the table exact |
| OlsrTopology.OneWinner | OLSR.cc:3263-3266 | of two distinct numbers exactly one is bigger |
| OlsrTopology.BiggerIsAhead | OLSR.cc:3263-3266 | a number is bigger if it lies less than half the circle ahead, or opposite and is the smaller one |
| OlsrTopology.BiggerComposes | OLSR.cc:3263-3266 | two comparisons compose exactly if the two steps together stay within half the circle, a tie going to the smaller number |
| OlsrTopology.RejectedTc | OLSR.cc:1806-1819 | a TC from a sender that is no symmetric neighbour, or older than a known link of its originator, leaves the set as it was |
| OlsrTopology.TopologyAgent.ProcessTc | OLSR.cc:1800-1858 | processing erases, refreshes and records as specified |
| OlsrTopology.TopologyAgent.EraseOlder | OLSR.cc:1825-1825 | the erasing scan removes exactly the outdated tuples |
| OlsrTopology.ProcessedTuple | OLSR.cc:1816-1858 | after an accepted TC an advertised link has exactly the new number and time, and any other tuple stays unless outdated |
| OlsrTopology.AcceptedTc | OLSR.cc:1816-1858 | after a strictly newer TC the originator's destinations are exactly those advertised, after an equal one their union with the old ones |
| OlsrTopology.ExpiredTuple | OLSR.cc:392-401 | an expiry removes exactly its tuple |
| OlsrTopology.RunConsistent | OLSR.cc:1816-1858 | in every run tuples of one originator share one number and no link is recorded twice |
| OlsrLinks.RunMatched | OLSR.cc:3029-3068 | in every single-interface run links and neighbours correspond one to one by address |
| OlsrLinks.SensedStatus | OLSR.cc:2595-2700 | after a HELLO the sender has a link and a neighbour, whose status is the one the link's times call for |
| OlsrLinks.CodeRoundTrip | OLSR.cc:2325-2325 | a link code gives back link type and neighbour type |
| OlsrLinks.EachLinkOnce | OLSR.cc:2263-2358 | a HELLO lists each live link exactly once, under its own code, and nothing else |
| OlsrLinks.AtMostNine | OLSR.cc:2324-2334 | in at most nine groups |
| OlsrLinks.GroupsFit | OLSR.cc:2338-2343 | the assertion on a group's addresses holds exactly if no link code has more live links than a group has room |
| OlsrLinks.NoOrphan | OLSR.cc:2318-2321 | the exit for a link without neighbour cannot be reached |
| OlsrLinks.LinkAgent.SendHello | OLSR.cc:2242-2364 | the loops build such a HELLO, and fail only on an orphan link |
| OlsrLinks.LinkAgent.ReceiveHello | OLSR.cc:2595-2700 | link sensing changes link and neighbour set as specified |
| OlsrLinks.LinkAgent.RmLinkTuple | OLSR.cc:3053-3068 | removing a link finds its neighbour and removes both |
| OlsrLinks.LinkAgent.UpdatedLinkTuple | OLSR.cc:3077-3095 | an updated link recomputes its neighbour's status |
| OlsrSensing.HelloSensed | OLSR.cc:2595-2700 | by the last valid link message that lists the node: SYM and ASYM make the link symmetric for the validity time, held for 6 seconds longer and no longer lost, LOST ends its symmetry, and without one the symmetry time stays, or is expired for a new link; the neighbour follows, and no other tuple changes |
| OlsrSensing.LinkTimeout | OLSR.cc:329-346 | the timer removes link and neighbour of an expired tuple, makes the neighbour of a link that is no longer symmetric not symmetric, except the first time, and touches nothing else |
| OlsrSensing.LinkBroken | OLSR.cc:2897-2903 | a link that the MAC layer reports is lost for 6 seconds, and its neighbour not symmetric where such reports count |
| OlsrSensing.WillingnessTaken | OLSR.cc:2709-2715 | a HELLO sets the willingness of its originator and nothing else |
| OlsrSensing.HelloTells | OLSR.cc:2263-2358 | a receiver reads back exactly whether the link is symmetric, heard or lost by its times, and whether its node is a relay, a symmetric neighbour or neither |
| OlsrSensing.HelloAnswers | OLSR.cc:2595-2700 | a HELLO from a node that hears the receiver makes the link symmetric at the receiver for the validity time |
| OlsrSensing.Handshake | OLSR.cc:2242-2700 | three HELLOs between two nodes that did not know each other, each still valid when it counts, make the link symmetric at both ends |
| OlsrTime.SecondsToEmf | OLSR.cc:3296-3323 | the code is the last representable time not above the given one, saturated at both ends |
| OlsrTime.Truncates | OLSR.cc:3296-3337 | in range, decoding gives at most the time, short by less than a sixteenth of its power |
| OlsrTime.OverstatesBelowC | OLSR.cc:3305-3312 | a code overstates the time exactly below C |
| OlsrTime.RoundTrip | OLSR.cc:3296-3337 | every code is the encoding of what it decodes to |
| OlsrTime.Monotone | OLSR.cc:3296-3337 | from C on, longer times never decode to shorter ones, saturation included |
| DsdvCodec.WordRoundTrip | dsdv.cc:541-549 | four bytes give back the low 32 bits |
| DsdvCodec.RoundTrip | dsdv.cc:516-549 | parsing an encoded update gives a prefix of its records, all of them exactly if their number fits the count byte |
| Dsdv.AdvertsExactly | dsdv.cc:523-549 | an update advertises exactly the includable routes, with their metrics and numbers |
| Dsdv.AdvertsInOrder | dsdv.cc:523-549 | in table order |
| Dsdv.UpdateRoundTrip | dsdv.cc:618-646 | a table of at most 255 entries is heard as it was advertised |
| Dsdv.CountExact | dsdv.cc:452-565 | the announced count is the number of records exactly if the update is triggered or the own entry was in the table and ready |
| Dsdv.DsdvAgent.MakeUpdate | dsdv.cc:422-567 | unless the announced count is wrong, which fails the last assertion, the packet has exactly 9 * count + 1 bytes that encode the selected adverts, and flags and counter move as specified |
| Dsdv.DsdvAgent.WriteRecords | dsdv.cc:516-565 | the second walk fills every byte and marks exactly the sent entries |
| Dsdv.DsdvAgent.ProcessUpdate | dsdv.cc:599-846 | the byte walk learns each record in order, then sees to the sender's timeout; it stops short exactly if a flush never ends |
| Dsdv.DsdvAgent.Hear | dsdv.cc:638-801 | one record changes the table as specified, and the waiting packets leave in order, unless the flush never ends |
| DsdvQueue.FlushEndsExactly | dsdv.cc:788-801 | the flush loop ends exactly if the route is usable or no own packet waits |
| DsdvQueue.OwnPacketHangs | dsdv.cc:788-801 | one own packet and no route keep it going for ever |
| DsdvQueue.Flush | dsdv.cc:788-801 | where it ends, the loop lets every packet leave in order whose TTL allows it, or none |
| Dsdv.FlushEndsIfAccepted | dsdv.cc:788-801 | at a broken route the flush ends exactly if the advert is accepted or no own packet waits |
| Dsdv.DsdvAgent.Recv | dsdv.cc:1000-1071 | a data packet is dropped, forwarded, or waits with its new TTL |
| Dsdv.DsdvAgent.Timeout | dsdv.cc:311-327 | a timeout breaks exactly the finite routes through the neighbour |
| Dsdv.DsdvAgent.ForwardPacket | dsdv.cc:910-977 | a packet leaves by the usable route or waits behind the others, the oldest of more than five being dropped |
| Dsdv.DsdvAgent.StartUp | dsdv.cc:1112-1146 | the own entry carries the counter, which moves by two |
| Dsdv.OwnUntouchedByUpdate | dsdv.cc:648-663 | no update of another node creates or changes the own entry |
| Dsdv.OwnUntouchedByTimeout | dsdv.cc:311-327 | no timeout of another node does |
| Dsdv.LearnKeepsRank | dsdv.cc:713-801 | an advert keeps the rank of a route from falling exactly if it is not flushed stale |
| DsdvEffects.TimeoutBreaks | dsdv.cc:311-327 | after the timeout of a neighbour no finite route through it is left: each is infinite under its number plus one; no other route changes |
| DsdvEffects.BreaksReported | dsdv.cc:314-322 | and each is in a triggered update made at once |
| DsdvEffects.OwnRouteKept | dsdv.cc:648-663 | no advert changes the own entry |
| DsdvEffects.NewRoute | dsdv.cc:636-718 | a destination never heard of gets the advertised route, one hop further, to be advertised after twice the initial settling time |
| DsdvEffects.BelievedRoute | dsdv.cc:668-757 | a fresher advert, or one as fresh and shorter, becomes the route, with the averaged settling time, and with the metric flag exactly if the metric is not the one advertised last |
| DsdvEffects.UnbelievedRoute | dsdv.cc:735-772 | any other advert changes nothing, but a stale break of a finite route, which has the own route advertised at once |
| DsdvEffects.FlushedRoute | dsdv.cc:788-801 | with packets to flush, a finite advert that is not believed is filed exactly if the flush ends |
| DsdvEffects.ChangeAnnounced | dsdv.cc:702-786 | a believed change is in triggered updates exactly from when it may be advertised, at once if it breaks or mends the route |
| DsdvEffects.Mentioned | dsdv.cc:617-802 | in an update that names each destination once, every record counts and only for its own entry |
| DsdvEffects.SenderWatched | dsdv.cc:804-837 | at the end the sender has an entry whose timeout is pending |
| DsdvEffects.PromotedExactly | dsdv.cc:443-459 | a triggered update becomes periodic exactly if more than three changes, and more than a third of the table, are ready |
| DsdvEffects.PeriodicCarries | dsdv.cc:461-549 | a periodic update carries the node under its next number, and of the other routes exactly those not held back |
| DsdvEffects.Advertised | dsdv.cc:551-561 | what an update carried counts as advertised; a triggered one leaves the metric flag |
| DsdvEffects.NothingLeft | dsdv.cc:556-561 | after a periodic update nothing is left to report |
| DsdvEffects.StartAnnounced | dsdv.cc:1112-1146 | the first update reports the node under its counter, over no hops |
| DsdvEffects.PacketLeaves | dsdv.cc:910-977 | with a usable route the packet goes to its next hop and nothing waits |
| DsdvEffects.PacketWaits | dsdv.cc:910-977 | without one it waits last, with its new TTL, and of six packets the oldest is dropped |
| DsdvEffects.Leaving | dsdv.cc:788-801 | a flush with a usable route lets every packet go, in order, that has a hop left or is own |
| DsdvNetwork.RunSane | dsdv.cc:599-846 | in every run every entry and advert carries a number its destination has issued, or one above it if broken |
| DsdvNetwork.RoutesAreIssued | dsdv.cc:311-327 | finite routes carry even numbers up to the destination's counter, broken ones at most one more, and only the destination has metric 0 |
| DsdvNetwork.FlushesThatEnd | dsdv.cc:788-801 | in every run a flush ends exactly if its advert is accepted or no own packet waits |
| DsdvNetwork.StartedHasOwnEntry | dsdv.cc:1112-1146 | an agent that was started has its own entry, ready to be advertised, for good |
| DsdvNetwork.CountsAfterStart | dsdv.cc:452-565 | so after its start the count assertion of an update holds in every run |
| DsdvNetwork.StepBacked | dsdv.cc:599-846 | every clean step keeps adverts within their sender's table and next hops strictly better, and no rank falls |
| DsdvNetwork.LaterIsBetter | dsdv.cc:974-977 | along next hops every later node but the destination is strictly better |
| DsdvNetwork.LoopFree | dsdv.cc:599-977 | in every clean run following next hops never returns to a node |
| DsdvSpread.HearerLearns | dsdv.cc:599-846 | what an update carries of a number fresher than the hearer knows becomes the hearer's route |
| DsdvSpread.RouteSpreads | dsdv.cc:422-846 | whatever the tables held, periodic updates along a path, each made once the route has settled, give every node a route to the first over exactly the hops of the path, under its new number |
| DsdvSpread.BreakSpreads | dsdv.cc:311-322 | the triggered update at a timeout takes down the route of every hearer that knew nothing fresher |
| AdverseFlush.StaleFlushLoops | dsdv.cc:788-801 | a run with one stale flush, in which every update is one that the timers send, ends in a loop of two nodes |
| AdverseFlush.OwnPacketNeverFlushed | dsdv.cc:788-801 | with an own packet waiting instead, the same advert starts a flush that never ends |
| Aodv.AodvAgent.RecvRequest | aodv.cc:678-841 | a request is dropped, answered or relayed as specified, after its reverse route |
| Aodv.AodvAgent.RecvReply | aodv.cc:848-959 | a fresher reply sets the route and travels on, any other is dropped |
| Aodv.AodvAgent.RecvError | aodv.cc:963-1015 | an error takes down exactly the routes it hits, and is passed on for those with precursors |
| Aodv.AodvAgent.HandleLinkFailure | aodv.cc:365-400 | a link failure bumps and takes down exactly the routes through the neighbour and reports them |
| Aodv.AodvAgent.RtPurge | aodv.cc:521-567 | expired routes are bumped and taken down, and requests go out for those that packets wait for |
| Aodv.AodvAgent.RtResolve | aodv.cc:454-518 | a packet uses the route, asks for one, waits, or is answered by an error |
| Aodv.AodvAgent.SendRequest | aodv.cc:1087-1206 | the rate limit, the expanding ring and the counters of a request |
| Aodv.AodvAgent.NbDelete | aodv.cc:1378-1395 | a lost neighbour moves the own number by two and fails its routes |
| Aodv.AodvAgent.LocalRtRepair | aodv.cc:403-417 | a repair marks the route and asks for it |
| Aodv.AodvAgent.RepairTimeout | aodv.cc:204-229 | a repair that times out takes the route down under its old number |
| AodvEffects.RepeatedIgnored | aodv.cc:690-705 | an own or remembered request does nothing |
| AodvEffects.ReverseRoute | aodv.cc:707-760 | any other is remembered for six seconds and sets the way back to its source if it is newer or shorter |
| AodvEffects.DestinationAnswers | aodv.cc:770-800 | the destination answers with exactly one reply over its way back, under its own new number: the next even one above its old number and the one asked for |
| AodvEffects.KnowingNodeAnswers | aodv.cc:802-830 | a node that knows the way answers with its route, one hop further, and the two next hops become each other's precursors |
| AodvEffects.RequestPassedOn | aodv.cc:831-841 | any other node passes the request on while hops are left, one hop further, under the highest number seen |
| AodvEffects.ReplyTaken | aodv.cc:864-930 | a newer or shorter reply becomes the route, ends the search and lets the waiting packets go |
| AodvEffects.ReplyStale | aodv.cc:929-940 | any other changes no route and goes no further |
| AodvEffects.ReplyPassedOn | aodv.cc:943-957 | a reply that was taken goes to exactly the next hop towards its requester, one hop further, and makes it a precursor |
| AodvEffects.ErrorHeard | aodv.cc:963-1015 | an error takes down exactly the finite routes through its sender that it names and that are not newer, and is passed on for exactly those with precursors, under the numbers they went down with |
| AodvEffects.NeighbourGone | aodv.cc:365-400 | after the loss of a neighbour no finite route through it is left: each is down under its number plus one and reported; the others only lose the precursor |
| AodvEffects.SearchWaits | aodv.cc:1100-1110 | nothing is asked while the route is up or the last search has not timed out |
| AodvEffects.SearchAsks | aodv.cc:1131-1206 | one request goes out under a new number and id; its ring is 5, two more than the last, or the whole network; its answer is awaited for at most ten seconds |
| AodvEffects.SearchGivesUp | aodv.cc:1116-1125 | after more than three searches of the whole network the packets are dropped and the search rests |
| AodvEffects.SearchWidens | aodv.cc:1087-1206 | an unanswered search from scratch asks exactly six times, over 5, 7 and four times 30 hops, and then gives up |
| AodvEffects.PacketForwarded | aodv.cc:474-477 | a packet uses a route that is up and keeps it alive |
| AodvEffects.OwnPacketAsks | aodv.cc:481-484 | an own packet without one waits and asks as soon as a request is due |
| AodvEffects.RelayedPacketFails | aodv.cc:488-516 | another node's packet waits for a repair or is answered by an error |
| AodvEffects.PurgeEntry | aodv.cc:521-567 | the purge takes down exactly the expired routes, lets packets go over live ones, and asks for exactly the destinations for which a request is due |
| AodvEffects.RepairStarts | aodv.cc:403-417 | a repair marks its route, keeps its number and hops, and asks if a request is due |
| AodvEffects.RepairEnds | aodv.cc:204-229 | a repair that times out takes the route down under its old number unless it is up again |
| AodvEffects.IdsRemembered | aodv.cc:260-275 | a request is forgotten exactly when its time has passed |
| AodvNetwork.StepSane | aodv.cc:678-1015 | every step, local repair included, keeps routes that are not down on even numbers their destinations have issued |
| AodvNetwork.RunSane | aodv.cc:678-1015 | so in every run own numbers never fall, each request's source number and each reply's number is even and issued, and a request's hops stay within the network diameter |
| AodvNetwork.ParityAsserts | aodv.cc:375-376 | in every run a finite or up route is not down and has an even number, so the parity assertions hold |
| AodvNetwork.UpIsFinite | aodv.cc:475-475 | in every clean run a route that is up has a finite hop count, as the assertions here and at lines 532, 549, 755 and 1103 demand |
| AodvNetwork.TimeoutKeepsRank | aodv.cc:204-229 | the timeout of a repair keeps the rank of its route exactly if it does not find it still under repair |
| AodvNetwork.ReplyIsFreshest | aodv.cc:782-800 | in every run a destination answers a request it has not heard with one reply, whose number is its own new one and above every entry for it in the network |
| AodvNetwork.TakenDown | aodv.cc:976-991 | an error takes a finite route down only under a strictly higher number |
| AodvNetwork.StepBacked | aodv.cc:678-1015 | every clean step keeps offers worse than what their sender holds and next hops strictly better, and no rank falls |
| AodvNetwork.LaterIsBetter | aodv.cc:420-428 | along next hops every later node but the destination is strictly better |
| AodvNetwork.LoopFree | aodv.cc:420-1015 | in every clean run a path along next hops is simple, so it ends after at most as many hops as there are nodes |
| AodvDiscovery.RunIds | aodv.cc:1087-1206 | in every run only broadcast ids that their sources have given out are on the air or remembered |
| AodvDiscovery.DiscoveryFindsRoute | aodv.cc:678-959 | a fresh request along a path and the reply that comes back leave every node of the path an up route: the next node as next hop, the distance left as hop count, the destination's new number |
| AodvDiscovery.DiscoverySucceeds | aodv.cc:678-1206 | in every run, a packet whose search is due starts exactly such a discovery, along any path within the ring on which only the destination can answer |
| AodvHops.AdoptionClimbs | aodv.cc:884-892 | taking over a route one hop further puts one more node among those with a route at least as good |
| AodvHops.StepClimbs | aodv.cc:678-1015 | every step keeps hop counts below the nodes ahead plus the network diameter |
| AodvHops.SmallRunIsClean | aodv.cc:804-806 | with up to 222 nodes no reply counts to INFINITY2 in any run in which no repair is given up |
| AodvHops.SmallNetworkLoopFree | aodv.cc:420-1015 | so loop freedom then needs no assumption on hop counts |
| AdverseRepair.RepairTimeoutLoops | aodv.cc:221-222 | a run whose repair is given up before its answer comes ends in a loop of two nodes |
| AdverseRepair.FlagAssert | aodv.cc:374-374 | the flag assertion of a link failure holds exactly if the route is not under repair |
| AdverseRepair.FlagAssertFails | aodv.cc:374-374 | and a run reaches a state in which it does not |
| DsrDiscovery.DsrAgent.IgnoreRouteRequest | dsragent.cc:1138-1162 | a request is ignored if it is old, if the node is on its path, or if the path is full |
| DsrDiscovery.DsrAgent.HandleRouteRequest | dsragent.cc:1016-1132 | a request is dropped or extended in place as specified |
| DsrDiscovery.DsrAgent.HandlePacketReceipt | dsragent.cc:766-782 | the target records and answers a request |
| DsrDiscovery.DsrAgent.ReturnSrcRouteToRequestor | dsragent.cc:1644-1710 | the answer reports the path with the target appended and travels its reversal; a full path has none |
| DsrDiscovery.DsrAgent.SendOutRtReq | dsragent.cc:1605-1641 | a new request carries the next number and the path of its requester alone |
| DsrDiscovery.SrPacket.ReverseInPlace | dsragent.cc:1693-1693 | the swaps reverse the path |
| DsrDiscovery.RouteExtends | dsragent.cc:1122-1123 | appending a node that heard the last one keeps a good path good |
| DsrDiscovery.RunGood | dsragent.cc:1016-1162 | in every run requests and replies carry simple paths over heard links within the limit, and one number of a source names one search |
| DsrDiscovery.RingZeroStops | dsragent.cc:1096-1106 | a ring-zero request is never rebroadcast |
| DsrDiscovery.RepliesReportPaths | dsragent.cc:1644-1710 | a reply reports a simple heard path from requester to target and comes back along its reversal |
| DsrEffects.TargetAnswers | dsragent.cc:766-782 | in every run the target answers a request that has room for it, and under first-only replies is new to it, with the path of the request and itself |
| DsrEffects.TargetSilent | dsragent.cc:766-782 | and in no other case is there a reply |
| DsrEffects.RequestRebroadcast | dsragent.cc:1016-1132 | in every run another node rebroadcasts a request, with itself at the end, exactly if it has not seen the search, is not on the path, has no cached answer and the path may grow |
| DsrEffects.HeardOnce | dsragent.cc:1138-1148 | a search that was seen, or an older one, is not passed on |
| DsrEffects.RunPassedOnce | dsragent.cc:1016-1162 | in every run a node passes each search of a source on at most once, if it answers first requests only or the source never asks for it |
| DsrEffects.LateRequestRepeats | dsragent.cc:770-780 | otherwise a late request for the node itself can make it pass a newer search on twice |
| DsrEffects.SearchFindsPath | dsragent.cc:1016-1710 | after any run, along any simple path short enough, a propagating search heard by one node after the other ends with a reply that reports exactly the path |
| DsrBackoff.Entry.BackOffTest | dsragent.cc:321-340 | the test passes exactly when the wait is over, and then counts up to 15 |
| DsrBackoff.Entry.GetRouteForPacket | dsragent.cc:1542-1594 | which request goes out, salvaged packets included |
| DsrBackoff.ShiftFits | dsragent.cc:325-325 | the shift stays within a signed 32-bit integer |
| DsrBackoff.TestPasses | dsragent.cc:321-340 | a test passes exactly half a second, two, eight, and from then on ten seconds after the last one that passed |
| DsrBackoff.RequestDecided | dsragent.cc:1542-1594 | ring-zero, propagating or no request: exactly by the wait, the kind of packet, and how long the last ring-zero request has been out |
| DsrBackoff.SearchWidens | dsragent.cc:1564-1584 | of two own packets more than the ARP timeout apart, within the next wait, the first sends a ring-zero request and the second a propagating one |
| DsrBackoff.ReplyResets | dsragent.cc:1777-1779 | a reply clears the wait |
| DsrBackoff.RunSpaced | dsragent.cc:321-340 | without a reply, successes are at least the waits in between apart |
| DsrBackoff.RequestRate | dsragent.cc:321-340 | so a window of t seconds holds at most 2 + t / 10 of them |
| DsrBackoff.AlwaysPaired | dsragent.cc:1564-1584 | with ring-zero search each propagating request directly follows a ring-zero one left unanswered for longer than the ARP timeout |
| DsrBackoff.RingZeroFirst | dsragent.cc:1564-1584 | so propagating requests never outnumber ring-zero ones |

## Left out

- MprComputation.MprAgent.QosMprComputation: the R1, R2 and QOLSR tie-breaks are modelled as free choices, since they follow a null guard that is inverted (OLSR.cc:1035, 1179) or none (OLSR.cc:1354-1362) into link tuples; the theorems hold for each choice.
- MPR minimality: not claimed, as the code does not purge N2 of nodes that WILL_ALWAYS neighbours cover.
- MprFlooding.FloodReachesAll: a transmission is heard by all neighbours before the next one starts, in any order of transmissions; duplicate tuples do not expire during the flood, no copy is lost, and the TTL is at least the number of nodes.
- RoutingTable.RoutingAgent.RtableDefaultComputation: single interfaces, and each symmetric neighbour that offers a 2-hop node has a live link, as the assertion in the 2-hop loop demands.
- AdverseRepair.RepairTimeoutLoops: the purges every half second are not among the steps of the run; they would only repeat requests.
- AodvNetwork.LoopFree: replies are assumed to stay below INFINITY2 hops, which is proved for up to 222 nodes only; sequence numbers are unbounded integers, and an error lists any number of destinations.
- OlsrForwarding.Forwarder.RecvOlsr: HELLO processing is modelled by `OlsrLinks` and MPR selection, not as an effect of this method.
- OlsrForwarding.RelayBudget: one node, with the total assumed of arriving copies; `OlsrRelays.FloodBudget` has no such assumption.
- OlsrRelays.FloodBudget: a message identity is originated once, so the 16-bit message number does not wrap while copies of it are left.
- OlsrLinks.LinkAgent.SendHello: a group holds any number of addresses; `GroupsFit` says when the source's bound is kept.
- DsdvNetwork.LoopFree: sequence numbers are unbounded integers; updates are delivered whole, which is how tables of up to 255 entries arrive (`UpdateRoundTrip`).
- Dsdv.DsdvAgent.Hear: reports a flush that never ends instead of going round for ever; the selfish drop of relayed packets in `recv` is left out.
- Dsdv.DsdvAgent.ProcessUpdate: the triggered updates it schedules, and the periodic update that a reported break of the node itself brings forward, are free steps of the network model.
- Dsdv.DsdvAgent.ForwardPacket: of a packet the model keeps whether it is own and its TTL; base stations in other subnets are not modelled.
- Dsdv.DsdvAgent.MakeUpdate: a wrong count is reported before the source writes past its buffer; scheduling of triggered and periodic updates is free in the network model, so which change triggers an update when is not captured.
- Aodv.AodvAgent.RecvReply: the latency history and the pacing of buffered packets; the send buffer is the set of destinations packets wait for.
- Aodv.AodvAgent.NbDelete: the neighbour cache itself; insertions and deletions are free steps.
- AodvDiscovery.DiscoverySucceeds: one order of deliveries, with no other step in between; what holds under every order is in `AodvNetwork`.
- DsdvSpread.RouteSpreads: likewise, and each update is heard to its end.
- DsrEffects.RunPassedOnce: `RequestTable::insert` is taken to overwrite the number it keeps, so a target that answers every request may lower it, as in `LateRequestRepeats`.
- OlsrSensing.LinkBroken: the 2-hop and selector tuples that `nb_loss` erases, and the computations it starts, are not part of `OlsrLinks`.
- DsrDiscovery.DsrAgent.HandleRouteRequest: answers from the route cache are a free choice that ends the request; the cached replies themselves are not modelled.
- DsrDiscovery.RunGood: nodes ask for routes to other nodes only, since packets to oneself never need one (dsragent.cc:718-731).
- DsrDiscovery.DsrAgent.HandlePacketReceipt: the route-request part only.
- DsrDiscovery.DsrAgent.ReturnSrcRouteToRequestor: the reversed path is not put into a route cache.
- DsrDiscovery.DsrAgent.SendOutRtReq: no route error rides on a request.
- DsrBackoff.Entry.GetRouteForPacket: the request decision only, without the send buffer and the packet.
- The OLSR rule of olsrd, `rtable_dijkstra_computation`, link quality, ETX and delay: they rest on classes that are not part of this repository.
- `populate_nb2hopset` and `populate_mprselset`: the MPR and flooding theorems take 2-hop and selector sets as given.
- MID messages and multiple interfaces: the code never sends them; the interface-association set is taken as empty.
- The link-delay branch of `send_pkt`, Tcl commands, traces, MAC callbacks, header sizes and jitter: simulator plumbing.
- DSR flow state, route-cache replies, salvage, route shortening and packet ownership: they depend on classes that are not part of this repository.
- The selfish-node checks: each is one branch that drops a data packet.
- `RoutingTable`, `aodv_rtable`, `Path`, `RequestTable` and the OLSR repositories are declared in headers that are not part of this repository: modelled as sequences and maps; BIG is 250, INFINITY2 is 255 and MAX_SR_LEN is 16, the values of ns-2. The bound of 222 nodes follows from INFINITY2 and the network diameter; other values would shift it.
