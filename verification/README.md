# Grid client planner: a verified model

The grid client turns a requested set of machines into operations on deployments and contracts, and into a private
WireGuard network between the nodes that host them. This project models the five parts of it that hold state and
make decisions, and proves what they keep, exactly when they keep it, and what they promise over whole runs.

* **Overlay network.** `Overlay` describes, as values, the peer tables that are generated for the nodes of a network;
  `Routing` and `Delivery` read them as routing tables and prove who reaches whom; `Decode` reads user access points
  back out of them. `Allocation` holds the allocators of subnets and addresses and the invariant of the parallel lists
  over any run of operations. `Networks` is the mutable network itself, a class whose methods are proved against those
  functions; `NetworkDelivery` and `NetworkStorage` carry the results over to its objects.
* **Planner.** `VersionMerge`, `Planning`, `Capacity` and `Readiness` specify the merging of planned operations, the
  capacity check and the waiting; `Handlers` has the methods, in place on planned operations. `Ledger` is the chain's
  contracts, `Saga` the carrying out of a plan with its rollback.
* **Reconciliation.** `Diff` has the nested loops that bring a deployment to what is requested, `DiffLaws` what they
  achieve. `Machines` is the creation of a machine on a network, `Pinning` what creation and reconciliation together do
  to addresses, `Versions` what any sequence of updates does to versions.
* **Deletion and contract index.** `Deletion` selects what goes with deleted machines; `Cleaning` specifies which nodes a
  network then lets go of and what is planned for them, `Cleanup` does it on network objects, `CleanupPlan` accounts
  for the operations, nodes and addresses it returns; `ContractIndex` is the stored list of contracts per deployment, on
  the file system of `FileStore`.
* **Chunked storage.** `KvStore` cuts values into chunks and reads them back.

A subnet is the index of a /24 in its network's /16, an address is an offset in the /16. Key derivation is an injective
constructor. Random choices are nondeterministic. What the grid answers about endpoints and access nodes, what the chain
and the nodes answer, and the digest of a workload are parameters. Errors that are thrown are returned as results.

`dafny verify dfyconfig.toml` checks everything.

Where the code is narrower than what it is meant to do, the model follows the code, and a lemma gives the exact
condition: access nodes and access points on visible members for delivery (`Delivery.DeliveryIff`), a legal operation
for the network's invariant (`Allocation.StepKeepsIff`), an addition that some walk comes across for a complete
reconciliation (`DiffLaws.CompleteIff`), something besides networks in the old deployment for noticing additions
(`DiffLaws.NullIff`), agreement of the other updates for an order-free merge (`VersionMerge.OrderFreeIff`), a change
that all requests leave in or that the first of them to leave it made, for its being selected
(`Versions.SelectedIff`), machines listed in the order they depend on each other for dependency-closed deletion
(`Deletion.ClosedIff`), registered and distinct names for taking a deployment back (`Saga.Executor.Deploy`), names
nobody registered before for taking it back without a trace (`Ledger.RefusedLeavesNothingIff`), two chunks for the
storage round trip (`KvStore.RoundTripIff`), no two operations on a node asking for the same resource for the plan's
check to protect the node (`Capacity.MergedPlanHoldsIff`), walks that meet every requested new machine for the pool to
hold only addresses in use (`Pinning.NoStrayIff`), reports that name nothing twice for a successful poll to mean a
complete deployment (`Readiness.ReadyIff`). The rollback of a whole plan recognises contracts under a key that the
plan never notes them under, so it takes nothing back (`Saga.Executor.Execute`). A user access asked for on a node
that is an access node itself is only made when the network was never stored (`Machines.VMHL.Create`).

## Model

| member | source | states |
|---|---|---|
| Overlay.InAllowedIps | src/primitives/network.ts:620-645 | the routes one node sends through another: its subnet, what hangs off it and, for a hidden node, every other reserved subnet |
| Overlay.AllowedIpsDistinct | src/primitives/network.ts:620-645 | no route is listed twice for a peer as long as no subnet is reserved twice |
| Overlay.InTable | src/primitives/network.ts:614-673 | a table holds exactly the tunnels to meshed nodes and one peer per point hanging off the node |
| Routing.TableKeysDistinct | src/primitives/network.ts:612-672 | no two peers of one node share a key |
| Delivery.ExactCover | src/primitives/network.ts:612-672 | the peers of a node in the mesh partition the routes of all other nodes and devices: each in exactly one peer, once, its own in none |
| Delivery.CoverIff | src/primitives/network.ts:612-672 | with any node in the mesh, all of them carry every foreign route exactly if all drawn access nodes and access points are on visible members |
| Delivery.HiddenTable | src/primitives/network.ts:621-645 | a hidden node has one peer, without duplicate routes, covering exactly the reserved subnets, its own included |
| Delivery.TunnelsLead | src/primitives/network.ts:645-672 | an entry under another member's key is a tunnel to its subnet, dialled at its own address, bracketed if it holds a colon, and at its own port; without an address of it, awaited |
| Delivery.TunnelThere | src/primitives/network.ts:614-659 | a node dials another one exactly if that has an address and, for a hidden node, is the access node drawn for it |
| Delivery.DeviceEntries | src/primitives/network.ts:660-672 | the entries under no member's key are exactly those of the devices with access through the node |
| Delivery.SymmetryIff | src/primitives/network.ts:612-672 | nodes know each other mutually exactly if hidden nodes choose hidden nodes only mutually |
| Delivery.HiddenChainIsAsymmetric | src/primitives/network.ts:612-672 | a hidden node dialling through another hidden one breaks the symmetry |
| Delivery.CarriedAcross | src/primitives/network.ts:614-659 | a destination entering the mesh elsewhere is carried by the peer for its entry node and by no other |
| Delivery.CarriedLocally | src/primitives/network.ts:660-672 | a destination hanging off the node is carried by its own peer and by no other |
| Delivery.FindRoute | src/primitives/network.ts:584-674 | with anchored access nodes and points, a loop-free route of at most three hops leads from any node to any destination |
| Delivery.RouteIsUnique | src/primitives/network.ts:584-674 | forwarding is deterministic: two routes from one node to one destination are the same |
| Delivery.HopIsUnique | src/primitives/network.ts:584-674 | a node has at most one next hop for a destination |
| Delivery.StuckHidden | src/primitives/network.ts:592-605 | a hidden node whose access node is missing or hidden gets nothing out to other nodes |
| Delivery.StuckBeforePoint | src/primitives/network.ts:636-672 | nothing reaches an access point on a missing or hidden node from elsewhere in the mesh |
| Delivery.DeliveryIff | src/primitives/network.ts:584-674 | everything reaches everything within three hops exactly if every drawn access node is a visible member and every access point sits on a member that is not hidden |
| Delivery.LostAccessNode | src/primitives/network.ts:584-674 | an access node that left the network cuts a hidden node off |
| Decode.PointsOfTable | src/primitives/network.ts:417-431 | one table decodes to the users on that node, never to the mesh or a hidden node |
| Decode.DecodeIff | src/primitives/network.ts:411-433 | decoding all tables gives back the access points as a multiset exactly if all sit on members and none has a node's key; in general those that do |
| Allocation.LeastFreeIs | src/primitives/network.ts:391-399 | the probe ends at the least free value |
| Allocation.LeastFreeBound | src/primitives/network.ts:306-310 | the probe passes at most one value per reserved entry |
| Allocation.LeastFreeWithin | src/primitives/network.ts:306-310 | the probe stays below a bound exactly if something below it is free |
| Allocation.UsedAreReserved | src/primitives/network.ts:371-389 | bringing the reserved list up to date adds exactly what is in use, each once |
| Allocation.ReservedIdempotent | src/primitives/network.ts:371-389 | bringing it up to date again changes nothing |
| Allocation.FreeSubnetIsFree | src/primitives/network.ts:391-399 | a free subnet is in nobody's use and at least the third of the range |
| Allocation.WithNodeConsistent | src/primitives/network.ts:101-136 | adding a node keeps the lists in step exactly if its subnet is unused |
| Allocation.PushIpConsistent | src/primitives/network.ts:325-343 | handing out a new address keeps the lists in step exactly if it is inside the node's subnet |
| Allocation.TakeIpIff | src/primitives/network.ts:301-324 | drawing an address keeps the lists in step exactly if the pool has room |
| Allocation.DeleteConsistent | src/primitives/network.ts:138-158 | filtering a node out of both lists keeps them in step |
| Allocation.StepKeepsIff | src/primitives/network.ts:63-158 | every operation keeps the invariant exactly if it is legal |
| Allocation.SharedSubnetBreaks | src/primitives/network.ts:101-136 | a node added on another's subnet breaks the invariant |
| Allocation.RunKeepsIff | src/primitives/network.ts:63-158 | over any run the invariant holds at every point exactly as long as all operations were legal |
| Allocation.AddressesGloballyDistinct | src/primitives/network.ts:301-343 | no address is given out twice in the whole network |
| Allocation.PoolsOf253 | src/primitives/network.ts:301-399 | up to 253 entries a subnet stays inside the /16 and a pool inside the /24 |
| Networks.Network.NodeExists | src/primitives/network.ts:237-244 | found exactly if some table is the node's |
| Networks.Network.HasAccessPoint | src/primitives/network.ts:246-253 | found exactly if some access point sits on the node |
| Networks.Network.GetAccessNodes | src/primitives/network.ts:255-269 | the grid's access nodes among the members, kept once known |
| Networks.Network.GetNodeSite | src/primitives/network.ts:285-299 | the record of a member's key and port, exactly if it is one |
| Networks.Network.GetFreeIp | src/primitives/network.ts:301-324 | the first address of the node's subnet not given out, or the first of the given subnet while the node has no table, noted in the node's pool; refused, nothing changing, exactly without a record of the node or without either subnet |
| Networks.Network.ValidateUserIp | src/primitives/network.ts:325-343 | an address of the caller's choice is taken exactly if it is unused and in the node's subnet; without a record of the node it is not noted and nothing is returned |
| Networks.Network.GetNodeReservedIps | src/primitives/network.ts:344-352 | the pool of the first record of the node, empty for none |
| Networks.Network.DeleteReservedIp | src/primitives/network.ts:354-361 | the address leaves the node's pool, every other pool stays |
| Networks.Network.GetNodeSubnet | src/primitives/network.ts:363-369 | the subnet of the first table of the node |
| Networks.Network.GetReservedSubnets | src/primitives/network.ts:371-389 | the list grown by the members', the points' and the tables' subnets in that order |
| Networks.Network.GetFreeSubnet | src/primitives/network.ts:391-399 | terminates with the least subnet from the third on that is not reserved, and reserves it |
| Networks.Network.ValidateFreeSubnet | src/primitives/network.ts:401-409 | reserves a subnet exactly if it was not reserved |
| Networks.Network.UpdateNetwork | src/primitives/network.ts:160-166 | the first table with the subnet, if any |
| Networks.Network.ChooseAccessNodes | src/primitives/network.ts:588-611 | an access node is drawn for exactly the hidden nodes; fails exactly if there are hidden nodes and no access node |
| Networks.Network.CollectAllowedIps | src/primitives/network.ts:620-645 | collects exactly the specified routes while refreshing the reserved list |
| Networks.Network.GeneratePeers | src/primitives/network.ts:584-674 | all tables are rewritten to those one plan prescribes (what that means is `NetworkDelivery`'s), reserved subnets only grow by used ones; access nodes are drawn from those known already, else from the grid's among the members; fails exactly if some of several nodes are hidden and no access node is known or a member |
| Networks.Network.AddNode | src/primitives/network.ts:101-136 | one step of the network, with all tables regenerated; nothing for a member; fails, the table staying listed, exactly if some of the members with the new one are hidden and no access node is known or among them |
| Networks.Network.AddAccess | src/primitives/network.ts:63-99 | fails exactly with one of the refusals, in order; else one step of the network and the dial-in data of that node, over IPv4 if it has that |
| Networks.Network.DeleteNode | src/primitives/network.ts:138-158 | both lists are filtered; fails after that exactly if any subnet is on the reserved list |
| Networks.Network.GetAccessPoints | src/primitives/network.ts:411-433 | appends what the stored tables decode to |
| Networks.Network.Save | src/primitives/network.ts:535-571 | notes the contract of the node it is for and stores exactly the records with a contract |
| Networks.Network.Load | src/primitives/network.ts:186-226 | refused for another range, fails if a deployment is missing; else appends the stored records with the current tables of their deployments, decodes the access points and stores the members again |
| NetworkDelivery.MatchedPlanIsWellFormed | src/primitives/network.ts:584-674 | a network in order whose tables were generated has a well-formed plan |
| NetworkDelivery.NetworkDelivers | src/primitives/network.ts:584-674 | the delivery theorem for the tables a network object holds |
| NetworkDelivery.NetworkTunnelsLead | src/primitives/network.ts:645-672 | the same of the tables of a network object: every entry under a member's key leads to that member |
| NetworkDelivery.NetworkTunnelThere | src/primitives/network.ts:614-659 | the same of the tables of a network object: who is dialled by whom |
| NetworkDelivery.NetworkDecodes | src/primitives/network.ts:411-433 | the decoding theorem for the tables a network object holds |
| NetworkStorage.MembersRestoredIff | src/primitives/network.ts:186-226 | saving and loading gives back members, pools and tables exactly if every member has a contract and a subnet in the range |
| NetworkStorage.NotedOnce | src/primitives/network.ts:551-564 | a save notes the contract for that node's records without one and changes nothing else |
| NetworkStorage.InRecorded | src/primitives/network.ts:551-564 | just the members with a contract are stored, as they are |
| NetworkStorage.InLoadedNets | src/primitives/network.ts:186-226 | the tables loaded are those in the stored records' deployments, undeleted and in range |
| NetworkStorage.NetworkRestored | src/primitives/network.ts:186-226 | and then the access points too, each once, exactly if all sit on members |
| VersionMerge.OccurrenceCount | src/high_level/twinDeploymentHandler.ts:216-231 | a name occurs as often as updates mention it |
| VersionMerge.LatestIsMaximum | src/high_level/twinDeploymentHandler.ts:242-246 | the kept occurrence has the highest version |
| VersionMerge.SurvivingAre | src/high_level/twinDeploymentHandler.ts:233-248 | the kept workloads are exactly the latest occurrences of the surviving names, each once |
| VersionMerge.LatestIsFirst | src/high_level/twinDeploymentHandler.ts:242-246 | of several occurrences with the highest version the first is kept |
| VersionMerge.MergeKeepsLatest | src/high_level/twinDeploymentHandler.ts:216-255 | a name survives exactly if all updates mention it or its first occurrence is newer than the first base, once and at the highest version |
| VersionMerge.ShortcutIff | src/high_level/twinDeploymentHandler.ts:211-214 | the shortcut for one update equals the general merge exactly if its names are unique |
| VersionMerge.OrderFreeIff | src/high_level/twinDeploymentHandler.ts:216-255 | the order of updates of one base is irrelevant exactly if for every removed name the others agree on having changed it |
| VersionMerge.TwoUpdatesOrderFree | src/high_level/twinDeploymentHandler.ts:216-255 | the order of two updates of one base never matters |
| VersionMerge.ThreeUpdatesDependOnOrder | src/high_level/twinDeploymentHandler.ts:216-255 | the order of three can |
| VersionMerge.MergeKeepsVersions | src/high_level/twinDeploymentHandler.ts:211-253 | merging raises the version by one and keeps every workload within it |
| VersionMerge.MergedHead | src/high_level/twinDeploymentHandler.ts:207-256 | a merged update has the first one's contract and node, one version up, and the first network any of them has |
| VersionMerge.MergedIps | src/high_level/twinDeploymentHandler.ts:219-254 | a merged update asks for everybody's public addresses |
| Planning.DeployMergeConserves | src/high_level/twinDeploymentHandler.ts:184-205 | per node one deploy, with all workloads in order and all public addresses |
| Planning.DeployMergeIdempotent | src/high_level/twinDeploymentHandler.ts:184-205 | merging the merged deploys again changes nothing |
| Planning.DeployMergeKeepsFirst | src/high_level/twinDeploymentHandler.ts:184-205 | a node's merged deploy goes by its first one's network, contract and version |
| Planning.UpdateMergeShape | src/high_level/twinDeploymentHandler.ts:257-279 | one update per contract, for exactly the updated contracts |
| Planning.MergeNormalForm | src/high_level/twinDeploymentHandler.ts:281-295 | one deploy per node, one update per contract, none both updated and deleted, every delete kept |
| Planning.MergeOrder | src/high_level/twinDeploymentHandler.ts:281-295 | the merged plan has the deploys first, in the order of their nodes, then the updates in the order of their contracts, then the deletes |
| Capacity.RequestedIsGathered | src/high_level/twinDeploymentHandler.ts:297-327 | what is charged to a node is the sum over all its requests |
| Capacity.DemandByType | src/high_level/twinDeploymentHandler.ts:313-327 | databases are charged as disk, machines and disks as solid-state disk, machines as memory, each by its size |
| Capacity.ChargedIs | src/high_level/twinDeploymentHandler.ts:297-310 | a deploy is charged for all workloads, an update for those at the deployment's version, a delete for none |
| Capacity.FitsIff | src/high_level/twinDeploymentHandler.ts:313-340 | an operation with anything to charge fits exactly if its node has as many bytes of each kind free |
| Capacity.CapacityIff | src/high_level/twinDeploymentHandler.ts:297-340 | merge and check accept exactly if every node has room for all it is requested and every update's changes fit |
| Capacity.DeploysFitIff | src/high_level/twinDeploymentHandler.ts:297-340 | the merged deploys pass exactly if for every node the sums over all original requests fit |
| Capacity.NodesHoldIff | src/high_level/twinDeploymentHandler.ts:297-340 | operations that pass one by one never ask more of a node than it has, exactly if no two of them on one node ask for the same resource |
| Capacity.TotalOfMerge | src/high_level/twinDeploymentHandler.ts:281-327 | a node is charged by the merged plan for all that was requested of it and the updates that are left |
| Capacity.MergedPlanHoldsIff | src/high_level/twinDeploymentHandler.ts:281-340 | a merged plan that passes never overcommits a node, whatever it has free, exactly if neither two updates nor an update and the deploys of one node ask for the same resource |
| Capacity.MergedPlanOvercommits | src/high_level/twinDeploymentHandler.ts:281-340 | a new disk and a grown one each fill a node, and their merged plan passes |
| Capacity.DeployAndUpdateAreNotAdded | src/high_level/twinDeploymentHandler.ts:297-340 | a node can pass a deploy and an update that together exceed it |
| Readiness.CountIsFull | src/high_level/twinDeploymentHandler.ts:145-157 | the count is full exactly if every report matches its target |
| Readiness.Pigeonhole | src/high_level/twinDeploymentHandler.ts:141-157 | distinct names of one side within as many of the other are all of them |
| Readiness.PollIs | src/high_level/twinDeploymentHandler.ts:114-157 | a poll fails exactly on a full list that reports a target in state error, and succeeds exactly on one of ready targets only |
| Readiness.WaitFailsIff | src/high_level/twinDeploymentHandler.ts:114-159 | waiting fails on a workload exactly if the first conclusive poll is on a full list that reports a target in state error |
| Readiness.ReadyIff | src/high_level/twinDeploymentHandler.ts:114-159 | targets and reports pair up by name, all ok and at the target version, exactly if a poll succeeds on reports that name nothing twice |
| Readiness.WaitIff | src/high_level/twinDeploymentHandler.ts:129-159 | waiting ends at a poll with the deployment there in full exactly if that poll is the first to succeed, none failed before it, and it names nothing twice; it times out exactly if no poll succeeds or fails |
| Readiness.DuplicateReportsDeceive | src/high_level/twinDeploymentHandler.ts:145-157 | with a name reported twice a missing workload goes unnoticed |
| Handlers.TwinDeploymentHandler.DeployMerge | src/high_level/twinDeploymentHandler.ts:184-205 | folds deploys in place to the specified merge and touches nothing else |
| Handlers.TwinDeploymentHandler.UpdateToLatest | src/high_level/twinDeploymentHandler.ts:207-255 | merges updates in place to the specified merge, for any number of them |
| Handlers.TwinDeploymentHandler.UpdateMerge | src/high_level/twinDeploymentHandler.ts:257-279 | groups and merges the updates per contract |
| Handlers.TwinDeploymentHandler.Merge | src/high_level/twinDeploymentHandler.ts:281-295 | the whole merge, in place, equals the specified one |
| Handlers.TwinDeploymentHandler.SumDemand | src/high_level/twinDeploymentHandler.ts:313-327 | the demand of a list of workloads |
| Handlers.TwinDeploymentHandler.CheckNodesCapacity | src/high_level/twinDeploymentHandler.ts:297-340 | accepts exactly if every operation fits its node |
| Handlers.TwinDeploymentHandler.CountReady | src/high_level/twinDeploymentHandler.ts:114-157 | the nested loops count as specified and stop at a failed workload |
| Handlers.TwinDeploymentHandler.WaitForDeployment | src/high_level/twinDeploymentHandler.ts:129-159 | the polling loop ends as specified |
| Diff.DeploymentFactory.UpdateDeployment | src/primitives/deployment.ts:36-113 | the nested loops leave the specified workloads (what these are is `DiffLaws`'), return the deployment exactly if something was found, and give drawn addresses back |
| Diff.DeploymentFactory.WalkPast | src/primitives/deployment.ts:63-101 | one walk takes up the additions it meets and stops at a change |
| Diff.DeploymentFactory.Compare | src/primitives/deployment.ts:77-100 | a machine keeps its address, the drawn one goes back to the pool, a change is stamped with the next version |
| DiffLaws.DiffMembers | src/primitives/deployment.ts:36-113 | what an update leaves: old ones as they were, changed ones, and the additions met, the last two at the next version |
| DiffLaws.DiffNamesUnique | src/primitives/deployment.ts:36-113 | names stay unique and each addition happens once |
| DiffLaws.CompleteIff | src/primitives/deployment.ts:54-107 | the result is the old networks plus the request exactly if every addition is met by some walk |
| DiffLaws.AdditionMissed | src/primitives/deployment.ts:54-107 | an addition listed after the only survivor is missed when that one changed |
| DiffLaws.StampedIffAsked | src/primitives/deployment.ts:58-107 | what is there and requested is left once: stamped, in all it is asked for, exactly if type, metadata, description or data differ, a machine's address aside; else as it was |
| DiffLaws.AddedIffMet | src/primitives/deployment.ts:67-107 | a new name is added exactly for a requested workload that some walk meets before the change that ends it, as requested and stamped |
| DiffLaws.UnaskedGoes | src/primitives/deployment.ts:58-107 | networks stay, and what is not requested any more goes |
| DiffLaws.FindsUpdateIff | src/primitives/deployment.ts:58-112 | null is returned exactly if nothing goes, nothing is asked to be different and nothing new is met |
| DiffLaws.UnchangedSurvivorCompletes | src/primitives/deployment.ts:54-107 | one surviving unchanged workload that is no network is enough for that |
| DiffLaws.NullIff | src/primitives/deployment.ts:109-112 | null means no difference exactly if the old deployment holds more than networks or nothing new is requested |
| DiffLaws.DiffVersions | src/primitives/deployment.ts:65-99 | exactly the changed and added workloads carry the next version, all others are untouched |
| DiffLaws.AddIff | src/modules/base.ts:308-330 | adding keeps everything and appends the extra workloads exactly if the deployment holds more than networks |
| DiffLaws.NetworksOnlyMissAdditions | src/primitives/deployment.ts:54-112 | a disk added to a deployment of one network is neither noticed nor added |
| DiffLaws.UpdateIsIdempotent | src/primitives/deployment.ts:36-113 | requesting the same again finds nothing to update |
| Machines.VMHL.ReserveSubnets | src/high_level/machine.ts:126-132 | for an address of the caller's choice its subnet is claimed and a second one set aside |
| Machines.VMHL.FindAccessMember | src/high_level/machine.ts:139-147 | whether an access node of the grid is a member |
| Machines.VMHL.AddAccessNode | src/high_level/machine.ts:148-159 | a foreign access node joins on the subnet set aside and hosts one more access point, exactly if it can be reached over IPv4 |
| Machines.VMHL.JoinOwn | src/high_level/machine.ts:160-187 | the machine's node joins unless it is a member, and gives access itself only for a network never stored; exactly when that succeeds |
| Machines.VMHL.Address | src/high_level/machine.ts:196-202 | the caller's address exactly if it can be claimed, else the first free one |
| Machines.VMHL.RenewAll | src/high_level/machine.ts:161-177 | every published deployment gets its first network workload in range renewed, one version further |
| Machines.OperationsAsPlanned | src/high_level/machine.ts:161-232 | the operations: every published deployment renewed if the network was stored and anybody joined, one for the access node if one was added, and one with the parts, the network if the node joined, and the machine at its address |
| Machines.VMHL.Create | src/high_level/machine.ts:126-233 | exactly when the creation succeeds; which members join, that only the node's pool gains one address, when the invariant is kept, when access is granted, that tables match one plan; that new members hold the keys and ports drawn for them; and the planned operations in full, the machine at that address |
| Pinning.ReleasedPool | src/primitives/deployment.ts:79-91 | after the walks exactly the addresses drawn for machines that had one are given back; every other drawn one stays, whether its machine is added or not |
| Pinning.NeededIsAddedAndStray | src/primitives/deployment.ts:79-107 | the addresses that stay are those of the machines the walks add, then those of the machines no walk meets |
| Pinning.NoStrayIff | src/primitives/deployment.ts:79-107 | no address stays for a machine that is not added exactly if some walk meets every requested new machine |
| Pinning.EveryAddressUsedIff | src/primitives/deployment.ts:54-107 | every address that stays belongs to a machine of the result exactly if some walk meets every requested new machine |
| Pinning.StrayAddress | src/primitives/deployment.ts:79-107 | the disk before a requested machine grows: the machine is not added, and its address stays taken |
| Pinning.SurvivorKeepsAddress | src/primitives/deployment.ts:79-91 | every surviving machine keeps its address |
| Pinning.UpdateLeavesAddressesAlone | src/high_level/machine.ts:196-202 | any number of creations on a node followed by reconciliation leaves its pool as it was plus the addresses of the machines added and of those no walk met, so plus the former only exactly if every requested new machine was met; all machines' addresses are in it, other pools untouched |
| Versions.StampsIff | src/high_level/machine.ts:163-176 | which workloads a request gives the next version: changed and added ones, and a renewed network workload only if it was at its deployment's version |
| Versions.HandledKeeps | src/high_level/twinDeploymentHandler.ts:207-255 | handling any requests raises the version by one and keeps the bound and unique names |
| Versions.SurvivesIff | src/high_level/twinDeploymentHandler.ts:233-241 | a name comes through the requests merged at once exactly if all of them leave it, or the first that leaves it gives it the next version |
| Versions.SelectedIff | src/high_level/twinDeploymentHandler.ts:305-309 | the names capacity is checked for are exactly those some request changed or added, except the ones that do not come through |
| Versions.SurvivorSelectedIff | src/high_level/twinDeploymentHandler.ts:305-309 | of the workloads that come through, exactly those some request changed or added are selected, none that were untouched |
| Versions.AdditionSelected | src/high_level/twinDeploymentHandler.ts:233-241 | an added name always comes through and is selected |
| Versions.UpToTwoSelected | src/high_level/twinDeploymentHandler.ts:233-241 | of up to two requests no change is lost |
| Versions.StampLost | src/high_level/twinDeploymentHandler.ts:233-241 | of three one can be: a disk kept, made bigger and removed is not left bigger |
| Versions.RunKeepsVersions | src/high_level/twinDeploymentHandler.ts:207-255 | along any run no workload gets ahead and the version counts the handled updates |
| Versions.RunSelectsStamped | src/high_level/twinDeploymentHandler.ts:305-309 | at any point of a run the names there are exactly those the last handling let through, and the selected ones those of them it changed or added |
| Deletion.HighLevelBase.FilterWorkloads | src/high_level/base.ts:15-63 | the loops compute the specified names, machines and remaining workloads |
| Deletion.Partition | src/high_level/base.ts:48-61 | remaining and removed partition the workloads; networks and other types always remain |
| Deletion.RemainingIff | src/high_level/base.ts:48-62 | networks remain, and workloads of other types or under other names |
| Deletion.NamesDragged | src/high_level/base.ts:33-46 | the names added are the disks and public addresses of the machines passed |
| Deletion.PassedIff | src/high_level/base.ts:28-46 | machines reported: all of them, or those reached in list order by the names given |
| Deletion.ClosedWhenMachinesAreNoDependencies | src/high_level/base.ts:34-46 | nothing a removed machine used is left behind if no machine is another's disk or address |
| Deletion.ClosureIff | src/high_level/base.ts:34-46 | the pass names exactly what was asked for or hangs on it over machines that come in that order in the deployment |
| Deletion.ClosedIff | src/high_level/base.ts:34-61 | nothing a removed machine used is left behind exactly if everything that hangs on the request over some machines also does over machines in the deployment's order (or everything goes, or machines are not meant) |
| Deletion.SecondPassIff | src/high_level/base.ts:34-61 | equally, exactly if a second pass would remove nothing more |
| Deletion.OnePassMayFallShort | src/high_level/base.ts:34-46 | one pass can fall short |
| Deletion.ReportedMachinesGoIff | src/high_level/base.ts:29-46 | the machines reported as deleted go, except when all are asked for without machines among the types |
| Cleaning.CleanStepKeeps | src/high_level/base.ts:87-148 | a node leaves a network only with its whole pool given back and, if it hosts access points, as the last one |
| Cleaning.CleanStepIsThorough | src/high_level/base.ts:93-148 | nothing that could go is left after a machine's turn |
| Cleaning.AllAreCleaned | src/high_level/base.ts:76-149 | whatever machines go, every network met ends up without their addresses and without the members they emptied, the others' pools untouched |
| Cleaning.DropOpsFree | src/high_level/base.ts:119-131 | what is planned for a dropped node frees the network in its deployment, and something is planned exactly if it has one |
| Cleaning.OutcomeCarries | src/high_level/base.ts:90-150 | every planned operation frees a network, and of the deployment's own workloads only those of networks the node left go, unless all do |
| CleanupPlan.DroppedIs | src/high_level/base.ts:89-108 | the machines' node leaves exactly if no other address is out on it and, hosting access, it is the only one left |
| CleanupPlan.AlsoDroppedIs | src/high_level/base.ts:134-136 | one other member left without an address goes too |
| CleanupPlan.RemainingIs | src/high_level/base.ts:108-117 | what remains of the deployment is what was to stay without the networks its node left, or nothing once its last workload went like that |
| CleanupPlan.OwnDeletedIff | src/high_level/base.ts:90-148 | the deployment is deleted with a network exactly if, in some machine's turn on it, nothing of the deployment is left or its last workload goes |
| CleanupPlan.NotedIff | src/high_level/base.ts:89-117 | exactly the addresses and nodes of the turns whose node stays, or leaves with something of the deployment left, are noted |
| CleanupPlan.LeaversTakenOut | src/high_level/base.ts:108-148 | every member that left has its table taken out of its deployment: by an operation, or out of what remains of the machines' own |
| CleanupPlan.OpsPlanned | src/high_level/base.ts:90-148 | no operation is planned but for the deployment itself or for a member let go in that turn |
| Cleanup.CleanOne | src/high_level/base.ts:87-135 | one machine's turn on a network object: its address, its node, a last node, and the contracts of both |
| Cleanup.PlanFor | src/high_level/base.ts:90-148 | one turn's branches on what remains, what left and what else left, as `CleanupPlan` accounts for them |
| Cleanup.DeleteMachineNetwork | src/high_level/base.ts:65-151 | every network met ends up cleaned, and the outcome is just what the machines' turns ask for: what remains, what is deleted, freed and noted, and nothing else |
| FileStore.FS.Set | src/storage/filesystem.ts:5-13 | writes one file and its missing directories, or removes for an empty value |
| FileStore.FS.Remove | src/storage/filesystem.ts:22-31 | removes one file and prunes exactly the directories that became empty |
| FileStore.FS.List | src/storage/filesystem.ts:33-38 | the entries of a directory, none for a missing one |
| FileStore.FS.DirsAreAncestors | src/storage/filesystem.ts:22-31 | a directory exists exactly if some file is below it |
| FileStore.FS.ListingIsProjection | src/storage/filesystem.ts:33-38 | a listing is the projection of the plain map of files |
| ContractIndex.BaseModule.Save | src/modules/base.ts:57-86 | a save writes exactly the new list, the entries of created and deleted contracts, and the configuration |
| ContractIndex.BaseModule.Exists | src/modules/base.ts:88-94 | listed exactly if the stored list is not empty |
| ContractIndex.BaseModule.Get | src/modules/base.ts:214-258 | succeeds exactly if every contract listed is answered; then the stored list is exactly the surviving contracts and the returned deployments are theirs; else the reading stopped at the first one unanswered; nothing else changes, and lists and entries that agreed go on agreeing |
| ContractIndex.SaveEffect | src/modules/base.ts:57-86 | what a save does to the lists and to the entries per contract |
| ContractIndex.SaveAgreesIff | src/modules/base.ts:57-86 | lists and entries keep agreeing exactly if no contract listed elsewhere is deleted |
| ContractIndex.ForeignDelete | src/modules/base.ts:57-86 | a save that deletes another deployment's contract leaves it listed there without an entry |
| ContractIndex.RunAgreesIff | src/modules/base.ts:57-86 | the same over any run of saves |
| ContractIndex.SaveKeepsTidy | src/modules/base.ts:77-85 | no empty list and no configuration without a list is left |
| ContractIndex.ListedIffNotEmpty | src/modules/base.ts:88-94 | on the file system a deployment is listed exactly if its list is not empty |
| ContractIndex.SurvivorsMatch | src/modules/base.ts:214-258 | the returned deployments are those of the surviving contracts, all live with a live workload of the module's types |
| ContractIndex.ForgottenIff | src/modules/base.ts:231-255 | an entry is forgotten exactly if the contract is gone or every workload of the module's kinds is deleted |
| KvStore.TFKVStore.Split | src/storage/tfkvstore.ts:65-79 | the loop cuts as specified, under the numbered keys |
| KvStore.TFKVStore.Set | src/storage/tfkvstore.ts:14-22 | writes the chunks, or removes the key for a blank value |
| KvStore.TFKVStore.Get | src/storage/tfkvstore.ts:25-39 | terminates and reads on under keys compounded from the last one |
| KvStore.SplitJoins | src/storage/tfkvstore.ts:65-79 | joining gives the value back; all chunks but the last are full, none longer |
| KvStore.ChunkKeysDistinct | src/storage/tfkvstore.ts:68-77 | no chunk overwrites another |
| KvStore.DecimalIsInjective | src/storage/tfkvstore.ts:74-74 | numbers are told apart by their decimal text |
| KvStore.SetThenGet | src/storage/tfkvstore.ts:14-39 | what is read back is the first two chunks and what was left over behind them |
| KvStore.BlankRemoves | src/storage/tfkvstore.ts:13-17 | a blank value takes the key out and leaves the others alone |
| KvStore.RoundTripIff | src/storage/tfkvstore.ts:14-39 | with nothing left over a value comes back exactly if it fits two chunks |
| KvStore.ShortRoundTripIff | src/storage/tfkvstore.ts:14-39 | up to two chunks it comes back exactly if nothing is left over |
| KvStore.StaleChunk | src/storage/tfkvstore.ts:14-39 | a shorter value after a longer one is read back with the old chunk |
| Ledger.NamesCancelledIff | src/high_level/twinDeploymentHandler.ts:360-364 | cancelling names goes all the way exactly if each is registered and none given twice; node contracts are untouched |
| Ledger.NameContractsAfter | src/high_level/twinDeploymentHandler.ts:34-41 | afterwards exactly the contracts of these names are dead |
| Ledger.OtherNamesKept | src/high_level/twinDeploymentHandler.ts:434-440 | cancelling names leaves other names as they were |
| Ledger.RollbackExactly | src/high_level/twinDeploymentHandler.ts:348-370 | a rollback cancels exactly the given deployments noted under their own id, with their names, and nothing else |
| Ledger.ChainObjectsAreNotRolledBack | src/high_level/twinDeploymentHandler.ts:356-359 | noted as chain objects only, nothing is taken back |
| Ledger.RefusedLeavesNothingIff | src/high_level/twinDeploymentHandler.ts:390-403 | a refused deployment that is taken back leaves every contract as live as it was exactly if none of its names was registered before; an older name contract goes along |
| Saga.RefusedTakenBackIff | src/high_level/twinDeploymentHandler.ts:390-403 | refused right after its names were registered, it is taken back exactly if none is used twice |
| Saga.DoubleNameSticks | src/high_level/twinDeploymentHandler.ts:390-403 | with a name used twice its own contract stays |
| Saga.CarriedAsAsked | src/high_level/twinDeploymentHandler.ts:390-443 | after an operation that went through the names of its gateways are registered, or cancelled if it was a delete; other names and older name contracts are as before |
| Saga.InTargets | src/high_level/twinDeploymentHandler.ts:412-442 | the contracts reported as updated or deleted are those of these operations |
| Saga.Executor.CreateNameContract | src/high_level/twinDeploymentHandler.ts:19-32 | a name is registered unless it is already |
| Saga.Executor.DeleteNameContract | src/high_level/twinDeploymentHandler.ts:34-41 | fails exactly for a name nobody registered |
| Saga.Executor.Rollback | src/high_level/twinDeploymentHandler.ts:348-370 | the loop does what is specified and stops at the first failure |
| Saga.Executor.Deploy | src/high_level/twinDeploymentHandler.ts:43-70 | if the node refuses, the contract is cancelled before the error escapes, exactly if the deployment's names are registered and distinct |
| Saga.Executor.DeployNamed | src/high_level/twinDeploymentHandler.ts:390-403 | names first, then the contract; on a refusal what that leaves of either |
| Saga.Executor.Carry | src/high_level/twinDeploymentHandler.ts:390-443 | the effect of one operation on live node contracts and on names: a carried-out one leaves its gateways' names registered, or cancelled if it was a delete, a failed one leaves other names alone; a deploy's contract is for the node planned, and no contract changes its node or name |
| Saga.Executor.Execute | src/high_level/twinDeploymentHandler.ts:372-452 | which node contracts are live after a plan, whether it goes through or not, and which names are registered: those an operation had registered, or that were, without a later delete giving them up; each created contract is for the node its deployment was planned on |

## Left out

- One workload or deployment record shared by several lists: workloads are values, a planned operation holds its
  deployment by value and knows its network by name, so changes through a shared record are not captured.
- `updateNetworkDeployments` (src/primitives/network.ts:168-184): it only refreshes copies of the tables that are looked
  up again before use.
- The texts: addresses, WireGuard configuration, endpoints with their interfaces, digests, encryption, signatures.
- `getFreePort` (src/primitives/network.ts:449-465): a random retry whose ending is only probable; the port is drawn.
- The order in which JavaScript enumerates names that look like numbers, in dictionaries of workloads by name.
- The node id noted on the first update of a contract while grouping is noted after grouping.
- Diff.DeploymentFactory.UpdateDeployment: works on a network that is there and on unique names in each list, and does not
  model the versions left on the requested deployment's own records, because nothing reads them afterwards.
- Diff.DeploymentFactory.WalkPast: works on a network that is there and on unique names among the requested workloads.
- Cleanup.DeleteMachineNetwork: takes the networks met to be loaded with their lists in step, as they are whenever each
  member published one table; a member with several shares one record between them.
- Saga.Executor.Execute: does not model the refreshing of network tables, validation, signing, and faults of the cancelling
  call itself; what the chain or a node answers is arbitrary.
- Errors from ill-shaped data, such as a machine without interfaces, and grid answers that change during one call.
- ContractIndex.BaseModule.Get: assumes that the index is not the only thing on the file system and that no list is stored
  empty, both of which saving keeps; the save of an empty list it would otherwise do is then unreachable.
- Missing entries of the chain's key-value store read as the empty text.
- The orchestration around one reconciliation in `_update` (src/modules/base.ts:260-306) and the second clean-up in `_delete`
  (src/high_level/base.ts:192-209): they combine the operations above.
- Remote calls, request models, builders of single workloads, wallets, and module facades.
