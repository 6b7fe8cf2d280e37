# MetalLB: a verified model of its control logic

This project models the parts of MetalLB that decide who gets which address and what the
network is told about it, and proves what they keep over every run:

* **Configuration** (`Config`, `ConfigMeaning`): the pool loop of the parser, prefix overlap and
  aggregation.
* **Allocator** (`Ledgers`, `Indexes`, `AllocatorSpec`, `AllocatorMeaning`, `Allocator`,
  `PortLists`, `PoolCount`): one map of allocations, five maps derived from it, sharing keys, pool moves and searches.
* **Controller** (`ControllerSpec`, `Convergence`, `Cluster`, `Restarts`, `Controller`): convergence of a
  service's status with the allocator, over all histories of services, writes, configurations
  and restarts.
* **BGP session** (`SessionSpec`, `SessionProofs`, `SessionPrefixes`, `SessionRoutes`,
  `SessionProgress`, `Session`): the goroutines as critical sections of one state machine, with everything ever written on each
  connection in a log that a peer replays.
* **BGP messages** (`OpenCodec`, `OpenReader`, `OpenValidity`, `UpdateCodec`,
  `UpdateRoundTrip`, `UpdateWriter`, `SessionWire`, `SessionOctets`): OPEN, UPDATE and
  withdrawals down to octets, against grammars and decoders written from RFC 4271, RFC 5492,
  RFC 4760 and RFC 6793.
* **Speaker** (`Advertising`, `SpeakerSpec`, `SpeakerProofs`, `SpeakerRuns`, `SpeakerRoutes`,
  `SpeakerBgp`, `FrontSpec`, `FrontRuns`, `FrontHistories`, `FrontChange`, `FrontRefusals`,
  `FrontTables`, `FrontCalls`, `FrontRoutes`, `FrontReached`, `SpeakerMain`): peers, sessions and advertisements, composed with the session model, so that
  the theorems reach the peers' routing tables.
* **Election** (`Election`): which node announces a service at layer 2.

Each component has a specification in functions over values and, where the program updates
things in place, a class whose methods and loops are proved against those functions. Goroutine
interleavings, network outcomes and status writes are events; the order in which a Go map is
visited is arbitrary; text decoding, hashing and label selectors are parameters. An event that
the program cannot take leaves the state as it is.

The main theorems are, for what must hold in every run: `AllocatorSpec.EveryRun` with
`PortLists.PortHypothesisExact`, `Cluster.EveryHistory`, `Cluster.RestartRestores` with
`Restarts.SynchronisedRestores`, `SessionProofs.PeerInSync` with
`SessionPrefixes.PrefixHypothesisExact`, `SessionWire.OctetsInSync` with
`SessionOctets.OctetsHypothesisExact`, `SpeakerRuns.EveryHistory`, `SpeakerRuns.TableExact`,
`FrontHistories.OneConfigEveryOrder`, `FrontRuns.RefusalSticks` with
`FrontRefusals.MatchingHypothesisExact`, `FrontTables.TruthHypothesisExact`,
`OpenCodec.OptionsExact`, `Election.ElectionExact`. For what comes out of it, said of the inputs
alone: `ConfigMeaning.ParseMeans`, `AllocatorMeaning.EveryCallMeans`,
`Convergence.ConvergeExact`, `SessionRoutes.RestingTells`, `SessionProgress.AlwaysRecovers`,
`FrontCalls.CallExact` and `FrontRoutes.RoutesFromEvents`, which leads from service events and
configurations to the routes that a peer has.

## Where the code departs from what one would expect

The model follows the code. These are results, each with its exact condition:

* A service with an empty or repeating port list breaks the allocator: a repeat panics on
  release, an empty list loses the sharing key (`PortLists.PortHypothesisExact`, if and only if;
  inputs in `PortLists.RepeatedPortFails` and `PortLists.EmptyListFails`).
* A session that is given two spellings of one prefix (host bits set) may leave its peer
  without the route (`SessionPrefixes.PrefixHypothesisExact`, if and only if; input in
  `SessionPrefixes.TwoSpellings`). The speaker never gives it any but the canonical one, which
  is part of what `SpeakerRuns.EveryHistory` states (`LogsAligned`).
* The program writes AS paths with four-octet AS numbers to every peer in another AS, but it
  also connects to peers that do not read them: an OPEN without capability 65 is accepted
  (`OpenValidity.NarrowPeerAdmitted`). Such a peer never gets the announced route
  (`UpdateRoundTrip.UpdateReadsBack`, `SessionOctets.OctetsHypothesisExact`, if and only if).
* A withdrawal of more than 4096 octets is unreadable (`UpdateRoundTrip.WithdrawReadsBack`).
  Sets of 814 advertisements are the largest that never lead to one
  (`SessionOctets.OctetsHypothesisExact`, if and only if).
* `readOpen` refuses a valid message exactly if it is shorter than 37 octets, although section
  4.2 of RFC 4271 allows 29 (`OpenValidity.RefusedExact`; input in
  `OpenValidity.ShortOpenRefused`).
* `readOpen` accepts an invalid message exactly if the stream ends before the message does or
  the optional parameters length is wrong (`OpenValidity.AcceptedExact`; inputs in
  `OpenValidity.CutOpenAccepted` and `OpenValidity.WrongOptionsLengthAccepted`).
* `poolCount` counts a /32 that consists of an avoided address as -1 (`PoolCount.Count`, if and
  only if; input in `PoolCount.LoneFigure`).
* The default BGP advertisement of a pool is not checked against its prefix lengths. A pool's
  advertisements fit its prefixes unless it relies on the default and has a prefix longer than
  32, which takes IPv6 (`Config.AdsFitExact`, if and only if; accepted input in
  `Config.DefaultTooShortAccepted`).
* What the sessions are told depends on map order exactly when two services disagree on a
  prefix that they share (`Advertising.OrderLeavesNoTraceExact`). Under one accepted
  configuration they never do (`FrontHistories.OneConfigEveryOrder`); a service set before and
  one set after a change of the local preference do, and the order of one later visit decides
  what a running session announces (`FrontChange.ChangeLeavesTrace`).
* When a running session refuses the list that comes with a service that was not yet announced,
  the service stays in the BGP controller's books without being announced through BGP. That
  happens exactly if the service is new, a session runs, and something cannot be sent: an
  advertisement of the service, or one that is in the books already (`FrontRuns.MatchingExact`,
  if and only if). So one service can keep another, sound one from being announced, also under
  an accepted configuration (`FrontRefusals.NeighbourReached`). Withdrawing a service fails
  likewise, with its list gone, exactly if a session runs and some other advertisement cannot
  be sent (`FrontRuns.WithdrawnExact`, if and only if).
* A service that is refused for its own advertisements is stuck: retrying, deleting it or
  announcing it at layer 2 does not help. Until it is set through BGP with an address and a pool
  whose advertisements can all be sent, or while no session runs, no session is told anything
  new about any service (`FrontRuns.RefusalSticks`). An accepted configuration leads there
  (`FrontRefusals.StuckReached`), and exactly the configurations without an advertisement that
  cannot be sent exclude it (`FrontRefusals.MatchingHypothesisExact`, if and only if).
* At every rest each peer has a route for exactly the prefixes of the services announced through
  BGP if and only if every configuration is of that kind (`FrontTables.TruthHypothesisExact`).
  Otherwise a peer may lack the route of an announced service, and a session may be told the
  route of a service that was deleted (`FrontTables.DeletedReached`).
* A restarted controller loses, before it is synchronised, the address of a service whose
  requested address is spelled otherwise than the controller prints it, and of no other service
  (`Cluster.RestartRestores`, if and only if; inputs in `Restarts.GapReached`). Synchronised, it
  gives the address back exactly if the other services still leave it
  (`Restarts.ComesBackExact`). All addresses come back whatever the order of processing if and
  only if no service without an address finds one in the gaps (`Restarts.SynchronisedRestores`);
  a service that waits for the same address is one that does (`Restarts.GapReached`).
* The speaker resolves an avoided address to the pool around it, the allocator to none
  (`FrontSpec.PoolsAgreeExact`, if and only if; input in `FrontSpec.PoolsDisagree`).
* Usable nodes that share the smallest hash may each announce a service
  (`Election.ElectionExact`, if and only if).

## Model

| member | source | states |
|---|---|---|
| Config.OverlapExact | internal/config/config.go:455-469 | two aligned prefixes overlap by the test exactly when some address lies in both |
| Config.NoOverlapExact | internal/config/config.go:228-235 | a list of prefixes passes the pairwise test exactly when no address lies in two of its entries |
| Config.ParseBgpAdvertisements | internal/config/config.go:351-403 | accepts exactly the lists whose every entry decodes and whose aggregation fits every prefix; the result is the decoded list |
| Config.ParseAddressPool | internal/config/config.go:305-349 | accepts exactly the acceptable pools and answers the pool they describe |
| Config.AddCidrs | internal/config/config.go:228-235 | the inner loop: the running list of prefixes grows by the pool's prefixes exactly when none overlaps an earlier one |
| Config.ParsePools | internal/config/config.go:215-240 | accepts a configuration exactly when every pool is acceptable, names are distinct and no address lies in two prefixes |
| Config.LoopAcceptsExact | internal/config/config.go:215-240 | what the loop checks step by step is the order-free condition on the whole configuration |
| Config.CoveredOnce | internal/config/config.go:215-240 | under an accepted configuration an address lies in at most one prefix of at most one pool |
| Config.AcceptedConfigIsGood | internal/config/config.go:215-240 | accepted configurations have named, aligned, mutually exclusive pools; aggregation always stays inside IPv4 prefixes, and inside all prefixes exactly unless the default meets a prefix longer than 32 |
| Config.AdsFitExact | internal/config/config.go:351-381 | an acceptable pool's advertisements fit its prefixes if and only if it is not a BGP pool without advertisements of its own and with a prefix longer than 32 |
| Config.DefaultTooShortAccepted | internal/config/config.go:351-381 | a configuration that the parser accepts although the default advertisement does not fit |
| ConfigMeaning.ParseMeans | internal/config/config.go:215-403 | a file is accepted exactly if each pool is acceptable by itself, names differ and no address lies in two prefixes of its texts; the result has exactly its pools, each with the prefixes of all its texts in order, its protocol, its flags (auto-assign unless false), and each entry's length, preference and communities |
| Ledgers.OwnerUnique | internal/allocator/allocator.go:335-347 | with exclusive pools the owner of an address does not depend on the order of visiting |
| Allocators.FindPool | internal/allocator/allocator.go:335-347 | the map loop answers the owning pool for every order |
| Ledgers.AssignKeepsInv | internal/allocator/allocator.go:129-182 | the index-free assignment rule keeps: pools exclusive, services on one address share lawfully pair by pair, every allocation filed under its owner |
| Ledgers.UnassignKeepsInv | internal/allocator/allocator.go:185-211 | releasing an address keeps the same invariant |
| Ledgers.SetPoolsKeepsInv | internal/allocator/allocator.go:65-99 | replacing the pools is all or nothing and changes no service's address, ports or keys |
| Ledgers.PoolSearchExact | internal/allocator/allocator.go:214-244 | a search answers a permitted, not avoided address of the pool that the rule admits, and answers nothing only if there is none |
| Ledgers.AllPoolsSearchExact | internal/allocator/allocator.go:247-265 | the same over all auto-assignable pools, for every order of the pools |
| Indexes.AddCoherent | internal/allocator/allocator.go:103-125 | recording a compatible allocation keeps all five derived maps equal to what the allocations imply |
| Indexes.RemoveCoherent | internal/allocator/allocator.go:185-211 | taking an allocation back never panics and keeps all five derived maps exact |
| Indexes.RemovePortsExact | internal/allocator/allocator.go:192-197 | the port loop succeeds and frees exactly the service's ports, given that they are distinct and its own |
| AllocatorSpec.CheckExact | internal/allocator/allocator.go:129-163 | the check on the derived maps admits an address exactly when the index-free rule does |
| AllocatorSpec.UnassignRefines | internal/allocator/allocator.go:185-211 | release on the six maps refines release on the allocations alone |
| AllocatorSpec.PutRefines | internal/allocator/allocator.go:103-125 | recording on the six maps refines one map update |
| AllocatorSpec.AssignRefines | internal/allocator/allocator.go:129-182 | assignment on the six maps refines the index-free rule and never panics |
| AllocatorSpec.MoveAllRefines | internal/allocator/allocator.go:87-96 | any visiting order re-homes exactly the services visited, also several on one address |
| AllocatorSpec.SetPoolsRefines | internal/allocator/allocator.go:65-99 | replacing the pools refines the index-free rule for every visiting order |
| AllocatorSpec.EveryRun | internal/allocator/allocator.go:65-265 | in every run of public calls nothing panics, the derived maps are exact, the six-map state follows the index-free rules, co-located services share lawfully and every allocation is filed under its owner |
| AllocatorMeaning.EveryCallMeans | internal/allocator/allocator.go:65-265 | in every run each call does what it should, said of pools and allocations: given exactly if some pool has the address and whoever else has it has the same keys, a sharing key and other ports; searches fail only if nothing is free; pools are replaced exactly if every address fits |
| PortLists.RepeatedPortFails | internal/allocator/allocator.go:192-197 | a list with a repeated port, taken and released, ends in the panic |
| PortLists.EmptyListFails | internal/allocator/allocator.go:199-202 | releasing a service with no ports erases the sharing key under another service |
| PortLists.PortHypothesisExact | internal/allocator/allocator.go:185-211 | all runs over a family of port lists are sound if and only if its lists are non-empty and free of repeats |
| Allocators.Allocator.Unassign | internal/allocator/allocator.go:185-211 | the class method does what the specification says on all six maps; the panic is not reached |
| Allocators.Allocator.Put | internal/allocator/allocator.go:103-125 | the internal recording step on all six maps |
| Allocators.Allocator.MayShare | internal/allocator/allocator.go:142-163 | the sharing and port loops answer the indexed check |
| Allocators.Allocator.Assign | internal/allocator/allocator.go:129-182 | succeeds exactly when the index-free rule admits; failure changes nothing |
| Allocators.Allocator.SetPools | internal/allocator/allocator.go:65-99 | succeeds exactly when every held address is owned under the new pools; failure changes nothing |
| Allocators.Allocator.MoveServices | internal/allocator/allocator.go:86-96 | the second loop re-homes every service, in any order |
| Allocators.Allocator.SearchCidr | internal/allocator/allocator.go:227-240 | the cursor loop over one prefix terminates and answers the first admitted address |
| Allocators.Allocator.AllocateFromPool | internal/allocator/allocator.go:214-244 | answers what the specified search answers and takes it; no answer changes nothing |
| Allocators.Allocator.Allocate | internal/allocator/allocator.go:247-265 | the same over the auto-assignable pools in the order met |
| Allocators.Allocator.PoolOfService | internal/allocator/allocator.go:277-283 | looking the pool up again by address gives the recorded pool |
| PoolCount.FigureExact | internal/allocator/allocator.go:302-332 | for prefixes of up to 2^62 addresses, IPv4 or IPv6, the closed form equals the number of addresses a search tries, less one for a lone avoided address |
| PoolCount.Count | internal/allocator/allocator.go:302-332 | the sum over the pool, exact if and only if no avoided address stands alone in a /32 |
| PoolCount.LoneFigure | internal/allocator/allocator.go:316-326 | 0.0.0.0/32, to be avoided: no address to try, and the figure is -1 |
| ControllerSpec.ChosenAdmitted | controller/service.go:120-145 | the address chosen for a service without one is admitted by the rule |
| ControllerSpec.ConvergeAgrees | controller/service.go:27-111 | on every return the status lists exactly the address the allocator holds, or both are empty; no other service is touched |
| ControllerSpec.ConvergeIdempotent | controller/service.go:27-145 | rerunning on what is persisted changes nothing, after success, after failure and after the return that waits for synchronisation, in whatever orders pools are visited |
| ControllerSpec.ConvergeDeserved | controller/service.go:27-145 | an address is held only by a load balancer, for its current request, and is the requested one if one was requested |
| Convergence.ConvergeExact | controller/service.go:27-145 | when a service has an address afterwards, which one, with which ports and keys, what its status says, and when convergence waits, all from service and ledger before the call |
| Convergence.PoolHonoured | controller/service.go:133-145 | a service that asks for a pool is given an address of that pool, and none exactly if it has no room; one that asks for none, an address of an auto-assigned pool, and none exactly if none has room |
| Cluster.EveryHistory | controller/main.go:48-124 | in every history of service, write, configuration and sync events the allocator's invariant holds, its pools are the accepted ones, and settled services publish what the allocator holds |
| Cluster.PublishedNeverClash | controller/main.go:48-96 | two settled services publish one address only with equal keys, a sharing key among them, and no common port |
| Cluster.RestartRestores | controller/main.go:48-124 | after a restart with the same configuration, processing all settled services before synchronisation, in any order, regains exactly the allocations whose requested address is not spelled otherwise, and writes nothing |
| Restarts.UnconfiguredWaits | controller/main.go:57-61 | without a configuration no object is written and nothing is given away, however often services are processed |
| Restarts.ComesBackExact | controller/service.go:27-145 | after synchronisation a service that names an address, in any spelling, is given it exactly if the other services leave it, and otherwise nothing |
| Restarts.SynchronisedRestores | controller/main.go:48-124 | after a restart, a round before and a round after synchronisation, every allocation is back for every order of the rounds if and only if no service without an address finds one among those the first round leaves free; the objects then stay as they were |
| Restarts.GapReached | controller/service.go:63-70 | for any address of any pool with a second spelling, a history that ends with it held under that spelling, and so lost by a restart, and one with a second service that would take it |
| Controllers.Controller.ClearServiceState | controller/service.go:115-118 | releases the address and clears the status |
| Controllers.Controller.AllocateIp | controller/service.go:120-145 | called only without an allocation; takes the chosen address |
| Controllers.Controller.Reclaim | controller/service.go:40-70 | the first half of convergence: whether the address in the status survives |
| Controllers.Controller.ConvergeBalancer | controller/service.go:27-111 | does what the specification says; the two internal-error branches are not reached |
| Controllers.Controller.SetBalancer | controller/main.go:48-96 | one service event: what is persisted, what the allocator holds, and whether the service is settled |
| Controllers.Controller.SetConfig | controller/main.go:104-119 | one configuration event: accepted exactly when every held address is owned under it |
| Controllers.Controller.MarkSynced | controller/main.go:121-124 | sets the flag and keeps the invariant |
| OpenCodec.OptionsExact | internal/bgp/messages.go:208-280 | the option area is accepted exactly when it prints some nesting of capability options, and the result is what the capabilities say |
| OpenCodec.OpenRoundTrip | internal/bgp/messages.go:13-206 | the reader recovers AS number (also above 65535) and hold time from what the writer sent, whatever follows, if and only if the hold time is 0 or at least 3, and takes exactly 49 octets |
| OpenReader.Reader.ReadOpen | internal/bgp/messages.go:152-206 | the stream reader accepts exactly the grammar's messages and takes exactly the message's length |
| OpenReader.Reader.ReadBody | internal/bgp/messages.go:175-206 | what follows the header, read through a length limit |
| OpenReader.Reader.ReadOptions | internal/bgp/messages.go:208-235 | the option loop consumes its limit and answers the grammar's result |
| OpenReader.Reader.ReadOption | internal/bgp/messages.go:224-233 | one option through its own limit |
| OpenReader.Reader.ReadCapabilities | internal/bgp/messages.go:237-280 | the capability loop inside one option |
| OpenReader.Reader.ReadCapability | internal/bgp/messages.go:249-278 | one capability: four-octet AS number, multiprotocol families, or skipped |
| OpenReader.SendOpen | internal/bgp/messages.go:13-87 | writes the specified layout, which reads back |
| OpenValidity.RefusedExact | internal/bgp/messages.go:152-206 | a message valid by section 4.2 of RFC 4271 is refused if and only if it is shorter than 37 octets |
| OpenValidity.AcceptedExact | internal/bgp/messages.go:152-206 | an accepted message is valid if and only if it is whole and its optional parameters length is right |
| OpenValidity.OwnOpenExact | internal/bgp/messages.go:13-87 | the OPEN that is sent is valid if and only if the hold time is legal, and has AS number or AS_TRANS, hold time, identifier, options length and capabilities in their places |
| OpenValidity.ShortOpenRefused | internal/bgp/messages.go:171-173 | every valid message without options is refused |
| OpenValidity.WrongOptionsLengthAccepted | internal/bgp/messages.go:179-205 | a message is accepted with any optional parameters length |
| OpenValidity.CutOpenAccepted | internal/bgp/messages.go:208-219 | the program's own OPEN, cut off before its options, is accepted with the two-octet AS number |
| OpenValidity.NarrowPeerAdmitted | internal/bgp/bgp.go:198-235 | a valid OPEN without capability 65 is accepted and the connection installed |
| UpdateRoundTrip.PrefixesRead | internal/bgp/messages.go:313-326 | every list of IPv4 prefixes is decoded back with irrelevant bits cleared |
| UpdateRoundTrip.RouteRead | internal/bgp/messages.go:328-382 | a decoder from section 4.3 and 6.3 of RFC 4271 and RFC 6793, which refuses wrong flags and repeated attributes, finds exactly the route's origin, AS path, next hop, local preference and communities, if and only if it reads four-octet AS numbers or the session is internal |
| UpdateRoundTrip.FlagsWritten | internal/bgp/messages.go:328-382 | well-known attributes are flagged 0x40, communities 0xc0, all other bits clear |
| UpdateRoundTrip.UpdateReadsBack | internal/bgp/messages.go:282-311 | every advertisement that passes the checks makes one message of at most 304 octets; prefix and route are recovered if and only if the peer reads four-octet AS numbers or the session is internal, and otherwise the path is never right |
| UpdateRoundTrip.WithdrawReadsBack | internal/bgp/messages.go:384-412 | a withdrawal is recovered exactly when it fits 4096 octets |
| UpdateWriter.EncodePathAttrs | internal/bgp/messages.go:328-382 | appends the attributes' printed form |
| UpdateWriter.EncodePrefixes | internal/bgp/messages.go:313-319 | appends the prefixes' printed form |
| UpdateWriter.SendUpdate | internal/bgp/messages.go:282-311 | back-patches both length fields to the exact message |
| UpdateWriter.SendWithdraw | internal/bgp/messages.go:384-412 | back-patches both length fields to the exact message |
| SessionProofs.EqualIsSameRoute | internal/bgp/bgp.go:474-485 | advertisements that compare equal are the same route to a peer |
| SessionProofs.FullSend | internal/bgp/bgp.go:88-100 | sending everything to an empty table, in any order, leaves exactly the wanted routes |
| SessionProofs.DiffSend | internal/bgp/bgp.go:119-150 | sending the difference, equal entries skipped, turns the known routes into the wanted ones |
| SessionProofs.EveryInterleaving | internal/bgp/bgp.go:48-458 | every interleaving of critical sections keeps the session invariant |
| SessionProofs.PeerInSync | internal/bgp/bgp.go:75-153 | whenever the session rests on a live connection, replaying its messages yields exactly the routes of the last accepted Set |
| SessionProofs.OneConnection | internal/bgp/bgp.go:157-236 | at most one connection is open between critical sections, and it is the session's |
| SessionProofs.ConnectedIs | internal/bgp/bgp.go:157-236 | the attempt action by action, from dialling through every close, ends with exactly its messages on a new connection, which stays open exactly if it is installed |
| SessionProofs.ConnectionsApart | internal/bgp/bgp.go:157-376 | connecting never replaces a live connection, and a consumer that ends touches only its own |
| SessionProofs.ClosedForGood | internal/bgp/bgp.go:452-458 | after Close nothing is written and no connection is installed, ever |
| SessionRoutes.MadeByAttempt | internal/bgp/bgp.go:157-236 | in every run a connection in place was made by one attempt, whose peer had the right AS number, and which settled the session's address and the smaller of the two hold times |
| SessionRoutes.RestingTells | internal/bgp/bgp.go:75-153 | in every run, at rest, the peer has a route for exactly the prefixes of the last accepted list; each says origin, AS path, local preference and communities of the last entry for its prefix, and the given next hop or else the address of the attempt that made the connection |
| SessionRoutes.OctetsTell | internal/bgp/bgp.go:75-153 | the same of a peer that knows only the octets, if and only if it reads four-octet AS numbers or belongs to the same AS |
| SessionRoutes.TickSends | internal/bgp/bgp.go:320-336 | in every run a tick on a live connection adds exactly one KEEPALIVE to its octets |
| SessionProgress.ConnectsExact | internal/bgp/bgp.go:157-236 | in every run an attempt makes a connection exactly if the session wants one, the peer answers with its AS number and nothing fails |
| SessionProgress.ConnectionLost | internal/bgp/bgp.go:320-376 | in every run a connection whose reader ends or whose keepalive fails is closed and given up, and what is wanted stays |
| SessionProgress.AlwaysRecovers | internal/bgp/bgp.go:48-153 | from every state of an open session some events of the network and its own goroutines lead to rest |
| SessionPrefixes.PrefixHypothesisExact | internal/bgp/bgp.go:75-153 | peers are in sync in all runs over a family of prefixes if and only if no two of them are one prefix |
| SessionPrefixes.TwoSpellings | internal/bgp/bgp.go:119-150 | with 0.0.0.0/31 and 0.0.0.1/31 some run ends out of sync |
| SessionWire.MessageReceived | internal/bgp/messages.go:282-426 | decoding a message's octets does to a table what the message means, if and only if it is no announcement to another AS or the peer reads four-octet AS numbers |
| SessionWire.StreamReceived | internal/bgp/messages.go:282-426 | a whole stream of messages that the peer understands is cut and decoded to the replay of its log |
| SessionWire.NarrowStream | internal/bgp/messages.go:282-426 | a peer in another AS that reads two-octet AS numbers gives up on the stream or has only wrong paths |
| SessionWire.OctetsInSync | internal/bgp/bgp.go:75-153 | whenever the session rests with something to announce, a peer that knows only the octets of the connection holds exactly the routes of the last accepted Set, if and only if it reads four-octet AS numbers or belongs to the same AS |
| SessionOctets.OctetsHypothesisExact | internal/bgp/bgp.go:75-153 | with at most n advertisements per Set, that holds at every rest of every run if and only if the peer reads four-octet AS numbers or belongs to the same AS, and n is at most 814 |
| Sessions.Session.Set | internal/bgp/bgp.go:409-432 | accepts exactly lists that can all be sent; a refused list changes nothing |
| Sessions.Session.Abort | internal/bgp/bgp.go:436-449 | drops the connection and skips ahead to the wanted routes |
| Sessions.Session.Close | internal/bgp/bgp.go:452-458 | one Close step |
| Sessions.Session.ConsumerExits | internal/bgp/bgp.go:367-376 | aborts only if its own connection is still the session's |
| Sessions.Session.SendKeepalive | internal/bgp/bgp.go:320-336 | one timer tick |
| Sessions.Session.Connect | internal/bgp/bgp.go:157-236 | every outcome of an attempt to connect |
| Sessions.Session.Handshake | internal/bgp/bgp.go:173-203 | from the dialled connection to the peer's OPEN; each failure closes the connection |
| Sessions.Session.Negotiate | internal/bgp/bgp.go:204-236 | from the peer's OPEN to the installed or closed connection |
| Sessions.Session.AnnounceAll | internal/bgp/bgp.go:119-132 | the send loop: the messages of some visit, up to the first failed write |
| Sessions.Session.EnterSendUpdates | internal/bgp/bgp.go:75-100 | from the entry of `sendUpdates` to its first wait or return |
| Sessions.Session.WakeSendUpdates | internal/bgp/bgp.go:102-152 | from one wait of `sendUpdates` to the next or to its return |
| Sessions.Session.Gone | internal/bgp/bgp.go:134-139 | the withdrawn prefixes, in the order met |
| Advertising.OneList | speaker/bgp_controller.go:191-194 | a set of communities has one ascending list, so map order leaves no trace |
| Advertising.SortedList | speaker/bgp_controller.go:191-194 | collects and sorts the communities |
| Advertising.MakeAds | speaker/bgp_controller.go:180-196 | the loop makes one well-formed advertisement per entry of the pool's configuration |
| Advertising.PrefixHoldsAddress | speaker/bgp_controller.go:183-190 | the advertised prefix is canonical and contains the service's address |
| Advertising.PrefixInsidePool | internal/config/config.go:376-381 | it lies inside the pool's prefix that the address comes from |
| Advertising.PoolsNeverShareAPrefix | internal/config/config.go:376-381 | under one accepted configuration services of different pools never share a prefix |
| Advertising.EqualPrefixesEqualAds | speaker/bgp_controller.go:180-196 | with distinct aggregation lengths equal prefixes carry equal advertisements |
| Advertising.AcceptedExact | internal/bgp/bgp.go:413-426 | the sessions accept the list exactly when every service's advertisements can be sent |
| Advertising.OrderLeavesNoTraceExact | speaker/bgp_controller.go:207-217 | what the sessions are told is the same for every order of services if and only if services agree on shared prefixes |
| Advertising.OneConfigAgrees | speaker/bgp_controller.go:180-217 | services whose lists come from one accepted configuration agree on every prefix that they share |
| Advertising.MergedKeys | internal/bgp/bgp.go:413-426 | the sessions are told exactly the prefixes of the services |
| SpeakerProofs.SessionsConserved | speaker/bgp_controller.go:47-80 | every running peer is carried over unchanged, once, or left over, once |
| SpeakerProofs.LeftoverExact | speaker/bgp_controller.go:47-64 | for each configuration the number carried over is the smaller of its old and new multiplicities |
| SpeakerProofs.SetConfigConserves | speaker/bgp_controller.go:47-80 | each session is held by exactly one peer with the same configuration and untouched, or by none and closed exactly once |
| SpeakerProofs.ConfiguredKeeps | speaker/bgp_controller.go:47-80 | the new peers have the new configurations in order, and exactly the sessions no longer held get one Close |
| SpeakerRuns.SyncExact | speaker/bgp_controller.go:130-166 | after `syncPeers` a peer runs exactly if a selector matches, except where a session could not be created; running ones are kept |
| SpeakerRuns.SyncKeeps | speaker/bgp_controller.go:130-166 | at every stage of the loop each open session is held once, each other closed once, and kept sessions are untouched |
| SpeakerRuns.EveryHistory | speaker/bgp_controller.go:47-257 | for every order of service, configuration, node and session events: sessions are held once or closed once, run only where a selector matches, and if all advertisements can be sent, all running sessions want the same merge of all of them |
| SpeakerRuns.EveryPeerLearns | speaker/bgp_controller.go:47-257 | in every history a running session that rests has taught its peer exactly the merge of all services' advertisements, that of every order if the services agree |
| SpeakerRuns.EveryPeerReads | speaker/bgp_controller.go:47-257 | the same from the octets of the connection alone, for lists of at most 814, if and only if the peer reads four-octet AS numbers or belongs to the same AS |
| SpeakerRuns.TableExact | speaker/bgp_controller.go:47-257 | a resting peer has a route for a prefix exactly when some service advertises that prefix |
| SpeakerRuns.PeerTableExact | speaker/bgp_controller.go:207-227 | the same of a single state that keeps the invariant |
| SpeakerRuns.NoSessionLeaks | speaker/bgp_controller.go:47-178 | a session is closed exactly when no peer holds it, at most once |
| SpeakerRoutes.PeerSays | speaker/bgp_controller.go:180-227 | at rest a peer has a route for exactly the prefixes that services advertise, each saying what a service's advertisement says, under the peer's own AS numbers and hold time |
| SpeakerRoutes.EveryPeerRuns | speaker/bgp_controller.go:125-178 | in every history in which sessions can be created, a peer has one exactly if some selector matches the node's labels |
| SpeakerBgp.BgpController.MatchPeers | speaker/bgp_controller.go:47-64 | the matching loop with its slots taken out one by one |
| SpeakerBgp.BgpController.CloseLeft | speaker/bgp_controller.go:66-80 | the closing loop |
| SpeakerBgp.BgpController.SetConfig | speaker/bgp_controller.go:47-83 | one configuration event, and when it reports success |
| SpeakerBgp.BgpController.ShouldRunHere | speaker/bgp_controller.go:133-139 | some selector matches the node's labels |
| SpeakerBgp.BgpController.SyncPeers | speaker/bgp_controller.go:125-178 | the loop over peers, with sessions that may fail to start, and the update after it |
| SpeakerBgp.BgpController.SyncPeer | speaker/bgp_controller.go:131-165 | one round of that loop |
| SpeakerBgp.BgpController.UpdateAds | speaker/bgp_controller.go:207-227 | one list, in some order of services, to every session up to the first error; succeeds exactly when all can be sent or nothing runs |
| SpeakerBgp.BgpController.SetBalancer | speaker/bgp_controller.go:180-205 | replaces the service's list even if the sessions then refuse |
| SpeakerBgp.BgpController.DeleteBalancer | speaker/bgp_controller.go:229-235 | removes the service's list, or does nothing |
| SpeakerBgp.BgpController.SetNode | speaker/bgp_controller.go:244-257 | resynchronises exactly when the labels changed |
| FrontSpec.PoolOfAddress | speaker/main.go:259-268 | the map loop answers the only pool around the address, for every order |
| FrontSpec.PoolsAgreeExact | speaker/main.go:259-268 | allocator and speaker name the same pool exactly when it does not avoid the address |
| FrontSpec.PoolsDisagree | speaker/main.go:259-268 | a pool of one avoided address, which the speaker finds and the allocator does not |
| FrontSpec.AssignedResolves | speaker/main.go:259-268 | in every run of the allocator an address assigned from a pool resolves to that pool in the speaker |
| FrontRuns.EveryFrontHistory | speaker/main.go:154-306 | in every history the noted addresses are those of the announced services and lie inside the configuration in force |
| FrontRuns.CleanHistory | speaker/main.go:154-257 | with sendable configurations the BGP controller advertises for exactly the services announced through BGP |
| FrontCalls.CallExact | speaker/main.go:154-257 | a call concerns only its service; after a successful one that is not ignored, the service is announced if and only if it is a load balancer with one address that parses and lies in a pool whose protocol has a handler that does not refuse, then through that protocol and with that pool's advertisements |
| FrontRoutes.EveryCallTracked | speaker/main.go:154-257 | in every history a service whose last call succeeded is as that call asked, and a service without calls is not announced |
| FrontRoutes.RoutesFromEvents | speaker/main.go:154-296 | in every history over sendable configurations, once every service's last call has succeeded, a resting peer has a route for exactly the prefixes that the entries of the services' pools make of their addresses, and each route has an entry's preference and communities, the own AS and the own address on that connection |
| FrontReached.RouteReached | speaker/main.go:154-296 | a history from nothing to one route at a resting peer, with the whole route |
| FrontRefusals.MatchingHypothesisExact | speaker/main.go:154-257 | over a family of accepted configurations that holds in all histories if and only if every BGP pool has IPv4 prefixes, masks of 0 to 32 bits and at most 63 communities wherever it advertises |
| FrontRefusals.StuckReached | speaker/main.go:154-257 | an accepted configuration and a history from the start that leave a refused service stuck |
| FrontRefusals.NeighbourRefused | speaker/main.go:189-221 | for any unfair and any fair address of a configuration, a history in which the service with the fair one is refused because of the other |
| FrontRefusals.NeighbourReached | speaker/main.go:189-221 | the same under one accepted configuration |
| FrontTables.TruthHypothesisExact | speaker/main.go:154-257 | over a family of accepted configurations, at every rest of every history each peer has a route for exactly the prefixes of the services announced through BGP, if and only if every configuration is as above |
| FrontTables.DeletedIsTold | speaker/main.go:234-257 | both services of such a pair are deleted, nothing is announced any more, and the session is told the prefixes of the fair one |
| FrontTables.DeletedReached | speaker/main.go:234-257 | the same under one accepted configuration |
| FrontHistories.OneConfigHistory | speaker/main.go:154-257 | with one configuration every list in the books was made from it |
| FrontHistories.OneConfigEveryOrder | speaker/main.go:154-296 | with one accepted configuration, whenever all advertisements in the books can be sent, each resting peer shows the merge of them in every order of the services |
| FrontChange.ChangeLeavesTrace | speaker/main.go:154-296 | two histories over accepted configurations that differ in the order of one visit of the services leave the running session with different routes to announce |
| FrontRuns.AdSendableExact | internal/bgp/bgp.go:414-425 | when the sessions accept an advertisement, from address and configuration alone |
| FrontRuns.MatchingExact | speaker/main.go:213-221 | a call breaks that match exactly when the service is new, a session runs, and an advertisement in the books, or one that the address or an entry of the pool makes, cannot be sent; in the latter case the service is stuck |
| FrontRuns.WithdrawnExact | speaker/main.go:234-257 | withdrawing an announced service breaks it exactly when a session runs and another advertisement in the books cannot be sent; the service then stays announced |
| FrontRuns.StepFrozen | speaker/bgp_controller.go:207-227 | while some advertisement cannot be sent, no event changes what any session is to announce |
| FrontRuns.RefusalSticks | speaker/main.go:234-238 | after a refusal, in every continuation in which the service is not set through BGP with a fair address and pool or while no session runs, a list of its stays that cannot be sent and no session learns anything new |
| SpeakerMain.Speaker.SetBalancer | speaker/main.go:154-232 | one service event; what success means: announced if and only if it is to be, through its pool's protocol and with its pool's advertisements |
| SpeakerMain.Speaker.Dispatch | speaker/main.go:154-189 | its branches, and exactly when success is reported |
| SpeakerMain.Speaker.Place | speaker/main.go:189-221 | a service that changes protocol is withdrawn first; exactly when success is reported |
| SpeakerMain.Speaker.Announce | speaker/main.go:202-221 | the handler's refusal, which withdraws, its error and its success |
| SpeakerMain.Speaker.DeleteBalancer | speaker/main.go:234-257 | withdraws; fails exactly if the service is still announced |
| SpeakerMain.Speaker.SetConfig | speaker/main.go:270-296 | refused without effect if an announced address would be outside; otherwise the handlers are called up to the first error |
| Election.UsableNodes | speaker/layer2_controller.go:40-71 | each node once, exactly those with an address that is ready and none that is not, whatever the subset order |
| Election.SortByHash | speaker/layer2_controller.go:78-83 | sorts in place by hash and keeps the nodes |
| Election.ShouldAnnounce | speaker/layer2_controller.go:73-92 | answers as some sorted list of the usable nodes says |
| Election.LessExact | speaker/layer2_controller.go:82-82 | the comparison of hashes is lexicographic |
| Election.LessTotal | speaker/layer2_controller.go:82-82 | it is total and asymmetric |
| Election.LessTransitive | speaker/layer2_controller.go:82-82 | and transitive |
| Election.AnnounceExact | speaker/layer2_controller.go:73-92 | a node may announce exactly if it is usable and no usable node's hash of node, # and service is smaller |
| Election.OnlyUsableAnnounce | speaker/layer2_controller.go:73-92 | no other node ever announces |
| Election.ElectionExact | speaker/layer2_controller.go:73-92 | exactly one node announces in every round if and only if the smallest hash belongs to one node |
| Election.NoCollisionsLoneFirst | speaker/layer2_controller.go:78-83 | without collisions it does |
| Election.LosersDoNotMatter | speaker/layer2_controller.go:73-92 | removing losing nodes never changes the winner |
| Election.NodeHasHealthyEndpoint | speaker/bgp_controller.go:86-112 | some address is ready on this node and unready nowhere |
| Election.ShouldAnnounceHere | speaker/bgp_controller.go:114-121 | BGP refuses exactly if the policy is local and no address is ready on this node and unready nowhere |

## Left out

- Allocators.Allocator.Assign: asks for non-empty port lists without repeats, because the program breaks on others; `PortLists.PortHypothesisExact` says exactly when.
- AllocatorSpec.EveryRun: the same restriction on port lists, for the same reason.
- Allocators.Allocator.AllocateFromPool: the same restriction on port lists, for the same reason.
- Allocators.Allocator.Allocate: the same restriction on port lists, for the same reason.
- PoolCount.FigureExact: the same restriction on prefix sizes as for `PoolCount.Count`.
- PoolCount.Count: prefixes of more than 2^62 addresses are not counted, because what Go makes of a float that exceeds an int64 depends on the machine; wrap-around of the sum over several such prefixes is not modelled.
- SessionWire.OctetsInSync: asks for at most 814 advertisements per Set; `SessionOctets.OctetsHypothesisExact` shows that no larger bound will do.
- SpeakerRuns.EveryPeerReads: asks that each list told to the session had at most 814 entries, because longer ones can be unreadable, as `SessionOctets.OctetsHypothesisExact` shows.
- FrontHistories.OneConfigEveryOrder: asks that all advertisements in the books can be sent, because otherwise the sessions refuse them all; `FrontTables.TruthHypothesisExact` says which configurations guarantee it.
- FrontRoutes.RoutesFromEvents: asks that every service's last call succeeded, since a failed one is retried, and for configurations whose advertisements can be sent; `FrontTables.TruthHypothesisExact` shows that no others will do.
- SpeakerRoutes.EveryPeerRuns: asks that sessions can be created; `SpeakerRuns.SyncExact` says what is left of it otherwise.
- OpenCodec.OpenRoundTrip: hold times are whole seconds up to 65535; longer ones do not fit the field.
- OpenValidity.AcceptedExact: validity leaves the BGP identifier open, zero included, because `readOpen` ignores it.
- ControllerSpec.ConvergeIdempotent: for addresses whose text parses back to them.
- SpeakerBgp.BgpController.SetConfig: sessions are numbers with a log of events rather than objects; what they do with the log is SessionSpec.
- SpeakerMain.Speaker.SetBalancer: what the protocol's `ShouldAnnounce` answers is an argument, and of the layer 2 handler only success or failure is modelled.
- Sessions.Session.Connect: what the network does is an argument; a failed write is taken to leave the peer with nothing of the message.
- IPv4 addresses written as IPv6 (`::ffff:a.b.c.d`), IPv6 default next hops.
- The peers part of `Parse`, decoding of YAML, addresses, communities and label selectors: parameters.
- `dialMD5`, `getRouterID`, the hold-time reader and the keepalive timer's timing: system calls and clocks.
- The layer 2 announcer, the VPP controller, Kubernetes plumbing, logging and metrics: I/O.
- Backoff and `parseCommunity`: they would only add easy members.
- Nothing is said about `svcIP` being the latest address: it is written on the first announcement only.
