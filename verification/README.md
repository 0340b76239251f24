# Verified models of the OCI cloud controller manager and CSI drivers

A Dafny project that models the stateful core of the Oracle Cloud Infrastructure cloud provider for
Kubernetes and of its CSI drivers, and proves what that core promises over every input and every run.
`dafny verify dfyconfig.toml` checks all of it.

| Files | What they model | Main results |
|---|---|---|
| `SecurityRules`, `SecurityListCalculators` | the three one-pass rule calculators | each equals a declarative filter-and-merge of the rule list |
| `SecurityListChanges` | the change detector, which compares lengths and one-way membership | exactly when it acts as equality on calculator outputs |
| `SecurityListPasses`, `SecurityListManager`, `SecurityListFixedPoint`, `SecurityListRestore`, `SecurityListDelete` | Update and Delete over subnets whose lists may coincide | a second Update writes nothing; Delete is exactly a filter; Update then Delete restores the lists exactly when no rule was on the service's ports |
| `SecurityListRuns` | many services sharing lists | over every run, what a live service needs stays in place |
| `SecurityListTraffic` | the same calls in terms of subnet blocks, sources and ports | what a successful Update opens and closes, and that nothing else is ever opened |
| `NsgRules`, `NsgReconcile`, `NsgCloud`, `NsgRuns`, `NsgTraffic` | network security groups: generated rules, ownership, batches, failures | safety at every batch, what every run of calls leaves in each group and lets through, reruns that reach the same rules |
| `VolumeAttachments`, `VolumePublishing`, `VolumePublishingCalls`, `VolumePublishingRuns` | attaching and detaching a block volume | over every run at most one attachment is live; exactly when requests that meet no failure succeed |
| `FileStorage`, `FileStorageRuns`, `FileStorageOutcomes` | provisioning and deleting a file-storage volume | over every run no duplicates, and nothing left after a successful delete; exactly when attempts that meet no failure succeed, and what they reuse |
| `VolumeLocks`, `NodeStaging` | per-volume locks and iSCSI staging on a node | operations never overlap; exactly when staging and unstaging succeed, and what a failed or retried one leaves behind |
| `ErrorTruncation`, `VolumeHandles`, `LustreHandles`, `LoadBalancerNames`, `VolumeCapacity` | truncation of messages, handle codecs, the name cache, capacity arithmetic | round trips and exact conditions |

Remote calls are steps that may fail; a failing call may still have taken effect, except where a line
under "Left out" says otherwise. Which remote calls fail, what pages a listing returns, which
services the lister reports and how each local step goes are parameters, so every result holds for
all of them. Case folding is an arbitrary function of strings (`fold`), the address
parser and the DNS name pattern are arbitrary functions too, with the few facts used about the address
parser stated in `IsParser`. The health-check port of nodes (10256) is a constant.

Where the code differs from what its comments or callers suggest, the model follows the code:

- `ExtractStorage` is commented as rejecting sizes above the supported maximum. Those comparisons come
  after two returns that already cover every case, so no size is rejected (`VolumeCapacity.NoMaximum`).
- The change detector is not equality in general. It is on calculator outputs exactly under the port
  conditions of `EgressDetectorExactIff` and `NodeDetectorExactIff`; the blind spots are constructed
  for all other ports.
- An Update that makes the outgoing health-check port the new backend port leaves the load balancer
  without egress rules to that port: the second egress call takes away what the first one added
  (`EgressOpensIff`).
- The generated network security group rules do depend on the iteration order of the port map when
  health-check ports differ and one of them is no backend port (`OrderIndependentIff`).
- After a failed logout, a retried unstage reports success with the session still live
  (`RetriedUnstageLeavesSessionIff`).
- An error before the iSCSI login leaves the node record behind (`StageLeavesCleanIff`).
- Two exits of staging after the login make no rollback. They are harmless for the iSCSI mounter alone, whose waits
  cannot fail (`StageRollsBackIff`, `IscsiStageRollsBack`).
- Rounding up to GiB is wrong exactly above 2^63 - 2^30 bytes: an expansion then changes nothing and
  reports success, and a new volume gets 50 GiB (`ExpandCoversIff`, `ProvisionedCoversIff`).
- A message cut to fewer than three bytes may end inside a character (`ShortLimitValidIff`).

## Model

| member | source | states |
|---|---|---|
| SecurityListCalculators.PortInUse | pkg/cloudprovider/providers/oci/load_balancer_security_lists.go:681-701 | the port counts as needed exactly when the lister fails or some live service of type LoadBalancer has it among its ports |
| SecurityListCalculators.HealthCheckPortInUse | pkg/cloudprovider/providers/oci/load_balancer_security_lists.go:703-729 | the same for health-check ports: 10256 for services with the cluster traffic policy, their own port for those with the local one |
| SecurityRules.MergeFrame | pkg/cloudprovider/providers/oci/load_balancer_security_lists.go:482-550 | rules that do not apply to the port keep their order and multiplicity |
| SecurityRules.MergePeers | pkg/cloudprovider/providers/oci/load_balancer_security_lists.go:482-550 | which CIDRs are open on the port afterwards: the old ones if the port is needed, else the wanted among them, plus all wanted ones |
| SecurityRules.MergeExact | pkg/cloudprovider/providers/oci/load_balancer_security_lists.go:511-547 | on a port nobody else needs, exactly the wanted CIDRs are open, each once |
| SecurityRules.MergeShape | pkg/cloudprovider/providers/oci/load_balancer_security_lists.go:482-550 | a merge is a subsequence of the old rules followed by one stateful TCP rule for exactly the port for each wanted CIDR without one, in increasing order |
| SecurityRules.SettledIsFixed | pkg/cloudprovider/providers/oci/load_balancer_security_lists.go:482-550 | the merge leaves a list unchanged exactly when it is settled: nothing unwanted, nothing twice, nothing missing |
| SecurityRules.MergeSettles | pkg/cloudprovider/providers/oci/load_balancer_security_lists.go:482-550 | the result of a merge is settled |
| SecurityListCalculators.CollectCidrs | pkg/cloudprovider/providers/oci/load_balancer_security_lists.go:350-372 | the loop over subnets computes the set of CIDR blocks that `CidrsMean` describes |
| SecurityListCalculators.CidrsMean | pkg/cloudprovider/providers/oci/load_balancer_security_lists.go:350-372 | that set is, for every requested family and no other, the IPv4 block and the IPv6 blocks of every subnet |
| SecurityListCalculators.GetLoadBalancerIngressRules | pkg/cloudprovider/providers/oci/load_balancer_security_lists.go:482-550 | the one pass with a shrinking set is the merge of the source CIDRs on the listener port |
| SecurityListCalculators.GetLoadBalancerEgressRules | pkg/cloudprovider/providers/oci/load_balancer_security_lists.go:552-648 | the one pass drops the outgoing port's rules and merges the node CIDRs on the desired port |
| SecurityListCalculators.GetNodeIngressRules | pkg/cloudprovider/providers/oci/load_balancer_security_lists.go:340-480 | the one pass over both ports equals its declarative walk |
| SecurityListCalculators.NodeIngressIsTwoMerges | pkg/cloudprovider/providers/oci/load_balancer_security_lists.go:340-480 | with distinct ports that walk is a filter followed by two independent merges, one for each port |
| SecurityListFixedPoint.NodeIngressSettles | pkg/cloudprovider/providers/oci/load_balancer_security_lists.go:340-480 | with distinct ports the backend port is open to exactly the wanted CIDRs, once each, and both ports are settled |
| SecurityListFixedPoint.NodeIngressElsewhere | pkg/cloudprovider/providers/oci/load_balancer_security_lists.go:340-480 | rules on ports that are not involved are untouched, in order |
| SecurityListFixedPoint.NodeIngressIdempotent | pkg/cloudprovider/providers/oci/load_balancer_security_lists.go:340-480 | computing node ingress rules again changes nothing, for any ports |
| SecurityListFixedPoint.EgressPairIdempotent | pkg/cloudprovider/providers/oci/load_balancer_security_lists.go:149-158 | computing both egress steps again changes nothing, whichever port is replaced by whichever |
| SecurityListChanges.SecurityListRulesChanged | pkg/cloudprovider/providers/oci/load_balancer_security_lists.go:296-330 | the detector reports a change exactly when lengths differ or a computed rule is not among the stored ones |
| SecurityListChanges.PatchLooksSame | pkg/cloudprovider/providers/oci/load_balancer_security_lists.go:296-330 | a list edited by deletions and genuinely new rules that looks the same to the detector is the same sequence |
| SecurityListChanges.EgressDetectorExactIff | pkg/cloudprovider/providers/oci/load_balancer_security_lists.go:149-166 | on egress outputs the detector is equality exactly when the outgoing backend port is not the desired health port, or is the desired backend port too |
| SecurityListChanges.NodeDetectorExactIff | pkg/cloudprovider/providers/oci/load_balancer_security_lists.go:115-127 | on node ingress outputs the detector is equality exactly when backend and health port differ or the backend port is unset |
| SecurityListChanges.ListenerPatches | pkg/cloudprovider/providers/oci/load_balancer_security_lists.go:161-166 | on listener outputs the detector is always equality |
| SecurityListChanges.EgressBlindSpot | pkg/cloudprovider/providers/oci/load_balancer_security_lists.go:296-330 | for every other choice of ports there is a changed egress list that the detector misses |
| SecurityListChanges.NodeBlindSpot | pkg/cloudprovider/providers/oci/load_balancer_security_lists.go:296-330 | for equal non-zero ports there is a changed ingress list that the detector misses |
| SecurityListManager.FindOldest | pkg/cloudprovider/providers/oci/load_balancer_security_lists.go:195-209 | the place of the list that `SelectMeans` describes, or an error exactly when one cannot be fetched |
| SecurityListManager.Manager.GetSecurityList | pkg/cloudprovider/providers/oci/load_balancer_security_lists.go:180-210 | the loop and the configuration lookup select that list |
| SecurityListManager.SelectMeans | pkg/cloudprovider/providers/oci/load_balancer_security_lists.go:180-210 | a configured list of the subnet wins, even over older ones; without one it is the oldest list, the first of several, and an error when one cannot be fetched |
| SecurityListManager.Manager.UpdateLoadBalancerRules | pkg/cloudprovider/providers/oci/load_balancer_security_lists.go:138-178 | the loop's lists, verdict and writes are those of a pass that stops at the first failure |
| SecurityListManager.Manager.UpdateBackendRules | pkg/cloudprovider/providers/oci/load_balancer_security_lists.go:108-136 | the same for node subnets |
| SecurityListPasses.PassOk | pkg/cloudprovider/providers/oci/load_balancer_security_lists.go:108-178 | a pass succeeds exactly when every subnet resolves to a list and can be reached |
| SecurityListPasses.PassReports | pkg/cloudprovider/providers/oci/load_balancer_security_lists.go:115-127 | every list a pass changes is among the reported writes, and a reported list is one of its own |
| SecurityListManager.Manager.Update | pkg/cloudprovider/providers/oci/load_balancer_security_lists.go:228-235 | both passes, the second only after the first succeeded |
| SecurityListManager.Manager.Delete | pkg/cloudprovider/providers/oci/load_balancer_security_lists.go:242-252 | both passes with no CIDRs wanted and the service's ports as the outgoing ones |
| SecurityListFixedPoint.UpdateIsFixedPoint | pkg/cloudprovider/providers/oci/load_balancer_security_lists.go:108-235 | after a successful Update, the same Update succeeds and writes nothing, even where load balancer and node subnets share lists, and however backend and health-check ports overlap; only the listener port is apart |
| SecurityListRestore.RoundtripLeaves | pkg/cloudprovider/providers/oci/load_balancer_security_lists.go:228-252 | what Update then Delete leave of every list: the rules that are not on the ports the service claims there, in order |
| SecurityListRestore.RestoreIff | pkg/cloudprovider/providers/oci/load_balancer_security_lists.go:228-252 | Update then Delete restore all lists exactly when no rule was on a port claimed there, provided no live service needs the ports |
| SecurityListDelete.DeleteLeaves | pkg/cloudprovider/providers/oci/load_balancer_security_lists.go:242-252 | a successful Delete leaves of every list exactly the rules on none of the service's ports there and those on a port that a live service needs, in order, for any ports |
| SecurityListDelete.RoundtripWhileNeeded | pkg/cloudprovider/providers/oci/load_balancer_security_lists.go:228-252 | Update then Delete while other services need the ports: rules off the ports are as before, and a needed health-check port keeps its rules as Update left them |
| SecurityListRuns.UpdateEstablishes | pkg/cloudprovider/providers/oci/load_balancer_security_lists.go:228-235 | a successful Update puts every rule the service needs in place on all its lists, whichever ports replace whichever, except where the outgoing health-check port becomes the backend port |
| SecurityListRuns.CallKeepsPresent | pkg/cloudprovider/providers/oci/load_balancer_security_lists.go:108-178 | a call that is harmless to a service's ports takes away nothing the service needs, wherever the call stops |
| SecurityListRuns.ManagerResolves | pkg/cloudprovider/providers/oci/load_balancer_security_lists.go:180-210 | the runs are those of the manager: subnets resolve to the lists it selects |
| SecurityListRuns.RunIsSafe | pkg/cloudprovider/providers/oci/load_balancer_security_lists.go:228-252 | over every run of Update and Delete calls of services sharing lists, failing anywhere, every rule needed by a live service's latest Update is present |
| SecurityListTraffic.UpdateOpens | pkg/cloudprovider/providers/oci/load_balancer_security_lists.go:108-235 | after a successful Update every load balancer list lets every source in on the listener port and reaches every block of the node subnets in the requested families on both ports, and every node list lets every such block of the load balancer subnets, and preserved sources, in |
| SecurityListTraffic.EgressOpensIff | pkg/cloudprovider/providers/oci/load_balancer_security_lists.go:149-158 | both egress calls together open the backend port exactly when the outgoing health-check port is not the new backend port, or stays the health-check port |
| SecurityListTraffic.UpdateOpensExactly | pkg/cloudprovider/providers/oci/load_balancer_security_lists.go:108-136 | the backend port of a node list is open exactly to the blocks of the load balancer subnets and to preserved sources |
| SecurityListTraffic.UpdateOpensNothingElse | pkg/cloudprovider/providers/oci/load_balancer_security_lists.go:108-235 | wherever an Update stops, every rule that is new in a list is a stateful TCP rule for one of these peers on one of these ports of a list of such a subnet |
| SecurityListTraffic.UpdateClosesIngress | pkg/cloudprovider/providers/oci/load_balancer_security_lists.go:108-136 | after a successful Update no node list has a rule on a port that was replaced |
| SecurityListTraffic.UpdateClosesEgress | pkg/cloudprovider/providers/oci/load_balancer_security_lists.go:138-178 | after a successful Update no load balancer list has an egress rule on a port that was replaced |
| NsgRules.MadeOpens | pkg/cloudprovider/providers/oci/load_balancer_network_security_group.go:186-210 | rules made for endpoints and ports let through exactly TCP traffic of their direction with these endpoints on these ports |
| NsgRules.TargetsMean | pkg/cloudprovider/providers/oci/load_balancer_network_security_group.go:60-184 | the ports collected over the port map: listener and backend ports that are set, and the first health-check port that is set in iteration order |
| NsgRules.GenerateNsgBackendIngressRules | pkg/cloudprovider/providers/oci/load_balancer_network_security_group.go:60-112 | TCP traffic passes the generated rules exactly from the frontend group to a backend port or the first health-check port set, and, when preserved, from a source CIDR to a backend port; and these rules are exactly the ones made for them |
| NsgRules.GenerateNsgLoadBalancerIngressRules | pkg/cloudprovider/providers/oci/load_balancer_network_security_group.go:114-143 | TCP traffic passes the generated rules exactly from a source CIDR to a listener port; one rule value for each |
| NsgRules.GenerateNsgLoadBalancerEgressRules | pkg/cloudprovider/providers/oci/load_balancer_network_security_group.go:145-184 | TCP traffic passes the generated rules exactly to a backend group on a backend port or the first health-check port set |
| NsgRules.OrderIndependentIff | pkg/cloudprovider/providers/oci/load_balancer_network_security_group.go:60-184 | the target ports do not depend on the iteration order exactly when all health-check ports agree or are all backend ports |
| NsgRules.GeneratedIndependent | pkg/cloudprovider/providers/oci/load_balancer_network_security_group.go:60-184 | with agreeing health-check ports all three generated sets are the same for every iteration order |
| NsgReconcile.SplitIntoBatches | pkg/cloudprovider/providers/oci/load_balancer_network_security_group.go:290-309 | the batches concatenate to the list, hold at most 25 and all but the last are full |
| NsgReconcile.FindSecurityRule | pkg/cloudprovider/providers/oci/load_balancer_network_security_group.go:454-483 | the search finds a rule exactly when one is present that agrees in description, protocol, source and destination up to case, and in both endpoint types, TCP options and direction |
| NsgReconcile.ReconcileSecurityRules | pkg/cloudprovider/providers/oci/load_balancer_network_security_group.go:423-452 | the difference in both directions, up to that equivalence |
| NsgReconcile.FilterSecurityRulesForService | pkg/cloudprovider/providers/oci/load_balancer_network_security_group.go:485-493 | exactly the rules described by the service's UID |
| NsgReconcile.FilterSecurityRulesIdsForService | pkg/cloudprovider/providers/oci/load_balancer_network_security_group.go:495-503 | exactly the ids of those rules |
| NsgReconcile.AddsProgress | pkg/cloudprovider/providers/oci/load_balancer_network_security_group.go:236-251 | after any prefix of the additions only wanted rules are new and nothing has gone |
| NsgReconcile.AddsComplete | pkg/cloudprovider/providers/oci/load_balancer_network_security_group.go:311-391 | when the additions are through, every wanted rule is present |
| NsgReconcile.RemovesProgress | pkg/cloudprovider/providers/oci/load_balancer_network_security_group.go:253-267 | after any prefix of the removals only the service's unwanted rules are gone, and after all of them exactly the wanted rules are in place |
| NsgReconcile.RerunConverges | pkg/cloudprovider/providers/oci/load_balancer_network_security_group.go:423-452 | one write of one group, interrupted anywhere and then completed, is a completed write of the original group |
| NsgReconcile.DoneAgree | pkg/cloudprovider/providers/oci/load_balancer_network_security_group.go:423-452 | any two completed writes of one group agree on the service's rules and on everybody else's |
| NsgCloud.Cloud.AddRules | pkg/cloudprovider/providers/oci/load_balancer_network_security_group.go:236-251 | batch by batch, a prefix of the rules is added and nothing else changes; all of them on success |
| NsgCloud.Cloud.RemoveRules | pkg/cloudprovider/providers/oci/load_balancer_network_security_group.go:253-267 | batch by batch, a prefix of the ids is removed and nothing else changes; all of them on success |
| NsgCloud.Cloud.ReconcileSecurityGroup | pkg/cloudprovider/providers/oci/load_balancer_network_security_group.go:311-391 | the call is a sequence of complete writes, frontend first, each with its own iteration order of the port map, with at most the last one interrupted; all complete on success, and success is certain when no remote call fails and the groups exist |
| NsgCloud.Cloud.RemoveBackendSecurityGroupRules | pkg/cloudprovider/providers/oci/load_balancer_network_security_group.go:393-421 | the same for removing a service's ingress rules from every backend group |
| NsgRuns.ReconcileSlices | pkg/cloudprovider/providers/oci/load_balancer_network_security_group.go:311-391 | which slice of which group a reconciliation writes last, and with what |
| NsgRuns.RemovalSlices | pkg/cloudprovider/providers/oci/load_balancer_network_security_group.go:393-421 | a removal empties the service's ingress slice of every backend group and touches no other |
| NsgRuns.RunSlices | pkg/cloudprovider/providers/oci/load_balancer_network_security_group.go:311-421 | after a chain of complete writes each slice holds what the last write to it generated, or what it held before |
| NsgRuns.AttemptSlices | pkg/cloudprovider/providers/oci/load_balancer_network_security_group.go:311-421 | a successful call fixes its slices of group, service and direction; no call changes any other slice, even when it fails |
| NsgRuns.AttemptKeepsForeign | pkg/cloudprovider/providers/oci/load_balancer_network_security_group.go:311-421 | rules that a call does not claim keep their ids and contents, even when it fails |
| NsgRuns.AttemptAddsClaimed | pkg/cloudprovider/providers/oci/load_balancer_network_security_group.go:311-421 | a call adds only rules that it claims, even when it fails |
| NsgRuns.RunLeaves | pkg/cloudprovider/providers/oci/load_balancer_network_security_group.go:311-421 | over every run of reconcile and removal calls of many services, failing anywhere, a slice holds what the last call touching it generated if that call succeeded, and is as before if none touches it |
| NsgRuns.RunForeign | pkg/cloudprovider/providers/oci/load_balancer_network_security_group.go:311-421 | over every such run, a rule that no call claims keeps its id and content |
| NsgTraffic.RunOpens | pkg/cloudprovider/providers/oci/load_balancer_network_security_group.go:311-421 | over every such run, a service's rules of a direction in a group let through exactly what the last call that concerns them is to open, if it succeeded: sources on the listener ports, the backend groups on the target ports, the frontend group and preserved sources on the backends, nothing after a removal |
| NsgRuns.SameLeaves | pkg/cloudprovider/providers/oci/load_balancer_network_security_group.go:60-184 | where iteration order does not matter, what a call leaves is the same for all orders it meets |
| NsgRuns.RerunReachesSame | pkg/cloudprovider/providers/oci/load_balancer_network_security_group.go:311-391 | a call that fails any number of times, anywhere in any of its groups, and is repeated to success leaves every slice of every group as one uninterrupted call does |
| NsgRuns.RerunForeign | pkg/cloudprovider/providers/oci/load_balancer_network_security_group.go:311-391 | and the rules it does not claim are the same by id and content after both |
| VolumeAttachments.ListVolumeAttachments | pkg/oci/client/volume_attachment.go:320-367 | all attachments that are not DETACHED, over all pages in order; not found when there is none |
| VolumeAttachments.LiveMeans | pkg/oci/client/volume_attachment.go:67-117 | the attachments kept are exactly those that are not DETACHED, and only DETACHED ones come before the first |
| VolumeAttachments.FindVolumeAttachment | pkg/oci/client/volume_attachment.go:67-117 | the first live attachment, returned together with not found when it is DETACHING; nothing and not found when none is live |
| VolumeAttachments.WaitForVolumeAttached | pkg/oci/client/volume_attachment.go:254-275 | success exactly when ATTACHED is seen after nothing but errors worth a retry and ATTACHING |
| VolumeAttachments.WaitForVolumeDetached | pkg/oci/client/volume_attachment.go:300-318 | success exactly when DETACHED is seen before a lasting error |
| VolumePublishingCalls.ListAndDecide | pkg/csi/driver/bv_controller.go:699-770 | a failed listing fails the request; without a live attachment it attaches; a first one that is DETACHING is waited for; on another instance it is an error; on this one it waits or is done; and this is where the state machine goes when its deliveries end |
| VolumePublishingCalls.FindAndDecide | pkg/csi/driver/bv_controller.go:948-983 | without a live attachment on the instance the request is done, one that is DETACHING is waited for, any other is detached; an error only of the listing; and this is where the deliveries of the instance's attachments lead |
| VolumePublishingCalls.PollAllIff | pkg/oci/client/volume_attachment.go:254-318 | polls of the state machine lead to success exactly when one succeeds and all before it ask to wait |
| VolumePublishingCalls.Await | pkg/oci/client/volume_attachment.go:254-318 | the waits end where the state machine's polls lead, and in failure when these run out |
| VolumePublishing.AttachOnlyWhenFree | pkg/csi/driver/bv_controller.go:699-850 | an attachment is requested only when the volume has no live one |
| VolumePublishing.StepKeeps | pkg/csi/driver/bv_controller.go:699-995 | every step of driver or cloud keeps at most one live attachment and what the current request relies on |
| VolumePublishing.RunIsSafe | pkg/csi/driver/bv_controller.go:699-995 | over every run: at most one attachment live, a published volume is ATTACHED to the requested instance, an unpublished one has nothing live there |
| VolumePublishingRuns.PublishOutcome | pkg/csi/driver/bv_controller.go:699-850 | a publish request in which nothing goes wrong, however deliveries, polls and moves of the cloud interleave, never ends otherwise than published on the requested instance when no other instance holds the volume, and in an error when one does |
| VolumePublishingRuns.PublishEnds | pkg/csi/driver/bv_controller.go:699-850 | from every safe state such a request can be carried to that end |
| VolumePublishingRuns.UnpublishOutcome | pkg/csi/driver/bv_controller.go:948-995 | an unpublish request in which nothing goes wrong never ends otherwise than unpublished |
| VolumePublishingRuns.UnpublishEnds | pkg/csi/driver/bv_controller.go:948-995 | from every safe state such a request can be carried to that end |
| FileStorage.LookUpByDisplayName | pkg/oci/client/file_storage.go:136-186 | a conflict exactly when some item is neither ACTIVE nor CREATING, otherwise all items in order |
| FileStorage.FindExport | pkg/oci/client/file_storage.go:322-361 | the first export with the path, and whether its state is usable |
| FileStorage.DecideFileSystem | pkg/csi/driver/fss_controller.go:271-318 | the decision between creating, reusing and failing is a step of the state machine |
| FileStorage.DecideMountTarget | pkg/csi/driver/fss_controller.go:351-412 | the same for mount targets |
| FileStorage.DecideExport | pkg/csi/driver/fss_controller.go:551-583 | the decision on the first export with the path is a step of the state machine |
| FileStorage.DecideExportToDelete | pkg/csi/driver/fss_controller.go:919-954 | the same for deletion, where an export in another state is passed over |
| FileStorageRuns.SearchIsComplete | pkg/csi/driver/fss_controller.go:551-569 | because of the tags, searching one export set and path finds every export of the file system |
| FileStorageRuns.FoundIsServed | pkg/csi/driver/fss_controller.go:189-204 | a file system found by name was tagged with the mount target in use |
| FileStorageRuns.StepKeeps | pkg/csi/driver/fss_controller.go:180-215 | every step of driver or cloud, failing or not, keeps the invariant |
| FileStorageRuns.DriverTouchesOwn | pkg/csi/driver/fss_controller.go:855-977 | no driver step changes another volume's resources or a mount target supplied by the user |
| FileStorageRuns.RunIsSafe | pkg/csi/driver/fss_controller.go:120-977 | over every run: never two file systems, driver-made mount targets or exports; a volume handed out is served by active resources; after a successful delete its file system, usable exports and driver-made mount target are going or gone |
| FileStorageOutcomes.CreateOutcome | pkg/csi/driver/fss_controller.go:180-225 | a create attempt, first or repeated, in which nothing goes wrong never ends otherwise than with a volume handed out, unless a named resource is unusable, DELETING or DELETED or the user's mount target is missing; then it ends in an error |
| FileStorageOutcomes.CreateReuses | pkg/csi/driver/fss_controller.go:271-606 | the volume is made of the file system, export and mount target that earlier attempts left, and of the user's mount target if there is one |
| FileStorageOutcomes.CreateEnds | pkg/csi/driver/fss_controller.go:180-225 | from every safe state such an attempt can be carried to that end |
| FileStorageOutcomes.DeleteOutcome | pkg/csi/driver/fss_controller.go:855-977 | a delete attempt, first or repeated, in which nothing goes wrong never ends but in success |
| FileStorageOutcomes.DeleteEnds | pkg/csi/driver/fss_controller.go:855-977 | from every safe state such an attempt can be carried to that end |
| VolumeLocks.Locks.TryAcquire | pkg/csi-util/utils.go:422-430 | succeeds exactly when the volume is free, and takes it |
| VolumeLocks.Locks.Release | pkg/csi-util/utils.go:432-436 | frees that volume and no other |
| VolumeLocks.Driver.Enter | pkg/csi/driver/bv_node.go:157-162 | entering through the lock set is a step of the state machine and goes on exactly when the volume is free |
| VolumeLocks.Driver.Leave | pkg/csi/driver/bv_node.go:162 | the deferred release is the leaving step |
| VolumeLocks.LocksAreExact | pkg/csi/driver/bv_node.go:157-162 | over every interleaving a call is rejected exactly when another is inside for its volume, and an idle driver holds no lock |
| VolumeLocks.NeverOverlap | pkg/csi/driver/bv_node.go:348-353 | over every interleaving, between two calls that get in for one volume the first has left |
| NodeStaging.Node.ISCSILogoutOnFailure | pkg/util/disk/iscsi.go:563-577 | logout, then removal of the record; its own failure is told apart |
| NodeStaging.Node.NodeStageVolume | pkg/csi/driver/bv_node.go:164-329 | the state and reply after every combination of failing steps, each exit with its own rollback call, as `StageSucceedsIff` and `StageRollsBackIff` describe them; an error after login leaves neither session nor record exactly when it is not one of the two waits that failed |
| NodeStaging.Node.NodeUnstageVolume | pkg/csi/driver/bv_node.go:355-463 | the same for unstaging, as `UnstageSucceedsIff` and `UnstageEndsSessionIff` describe it |
| NodeStaging.StageSucceedsIff | pkg/csi/driver/bv_node.go:164-329 | for every mount handler with its waits: staging a filesystem succeeds exactly when the volume is mounted already, or no step fails and the disk is blank or holds the requested file system; staging a raw device exactly when no step fails |
| NodeStaging.IscsiStageSucceedsIff | pkg/csi/driver/bv_node.go:164-329 | the same for the iSCSI mounter, where of the waits only that for the device path counts |
| NodeStaging.UnstageSucceedsIff | pkg/csi/driver/bv_node.go:355-463 | exactly when unstaging succeeds, and that success takes mount, session and record away exactly when a mount was seen, known and open |
| NodeStaging.StageRollsBackIff | pkg/csi/driver/bv_node.go:164-329 | for every mount handler: success means record, session and mount; an error after login leaves no session and no record exactly when neither wait without a rollback is what failed, the cleanup's own error aside |
| NodeStaging.IscsiStageRollsBack | pkg/util/disk/iscsi.go:452-455 | the iSCSI mounter's waits are constants, so for it the rollback is unconditional |
| NodeStaging.WaitLeavesSession | pkg/csi/driver/bv_node.go:223-231 | with a mount handler whose wait fails, record and session are left |
| NodeStaging.StageLeavesCleanIff | pkg/csi/driver/bv_node.go:176-329 | exactly which failures leave a clean node clean, for every mount handler |
| NodeStaging.LayeredIff | pkg/csi/driver/bv_node.go:164-463 | a call keeps mount over session over record exactly when it is not a rollback of a repeated raw-block staging |
| NodeStaging.RunLayered | pkg/csi/driver/bv_node.go:164-463 | in filesystem mode that order holds over every run of stage and unstage calls |
| NodeStaging.UnstageEndsSessionIff | pkg/csi/driver/bv_node.go:366-463 | exactly when a successful unstage ends the session |
| NodeStaging.OnlyOneLogout | pkg/csi/driver/bv_node.go:372-463 | of any number of unstage attempts only the one that unmounts logs out, and what it leaves stays |
| NodeStaging.RetriedUnstageLeavesSessionIff | pkg/csi/driver/bv_node.go:375-459 | retries leave a live session exactly when the attempt that unmounted failed to log out |
| NodeStaging.RetriedUnstageExample | pkg/csi/driver/bv_node.go:375-382 | a retry that reports success over a live session |
| ErrorTruncation.TruncateError | pkg/csi-util/utils.go:697-725 | the result within the limit: everything, the first bytes, or the part up to the last character boundary and the suffix |
| ErrorTruncation.PrefixValidIff | pkg/csi-util/utils.go:718-722 | a prefix of well-formed UTF-8 (section 4 of RFC 3629) is well-formed exactly when the next byte continues no character |
| ErrorTruncation.TruncationKeepsCharacters | pkg/csi-util/utils.go:711-725 | truncated well-formed text stays well-formed and keeps the longest prefix of whole characters that leaves room |
| ErrorTruncation.ShortLimitValidIff | pkg/csi-util/utils.go:711-714 | exactly when a cut below the suffix length stays well-formed |
| VolumeHandles.FormatMeans | pkg/csi-util/utils.go:593-600 | an address without a four-byte form gets brackets, and nothing else does |
| VolumeHandles.FormatIsStable | pkg/csi-util/utils.go:593-600 | formatting an address twice is formatting it once, and trimming brackets undoes it |
| VolumeHandles.PrintMeans | pkg/csi/driver/fss_controller.go:217 | the printed handle is the file system, the formatted address and the path with colons between |
| VolumeHandles.ParseJoined | pkg/csi-util/utils.go:548-566 | a well-formed handle parses to its three parts |
| VolumeHandles.JoinParsed | pkg/csi-util/utils.go:548-566 | a parsed handle is well-formed and prints as the original string |
| VolumeHandles.RejectedIff | pkg/csi-util/utils.go:548-566 | exactly the strings that are no well-formed handle are rejected |
| VolumeHandles.PrintParsesBackIff | pkg/csi/driver/fss_controller.go:217 | the printed handle parses back exactly when file system id and export path are not empty and hold no colon |
| LustreHandles.IsValidShellInput | pkg/csi-util/lustre_lnet_helper.go:371-384 | true exactly when the input holds neither a space nor one of twelve characters with a meaning to a shell |
| LustreHandles.ValidateLustreVolumeId | pkg/csi-util/lustre_lnet_helper.go:47-77 | valid exactly when all segments are, with the label of the last NID |
| LustreHandles.ValidIff | pkg/csi-util/lustre_lnet_helper.go:42-77 | exactly the documented handles are valid: one or more NIDs and a path with colons between |
| LustreHandles.ExtractBuiltIff | pkg/csi/driver/lustre_controller.go:446-465 | the OCID comes back from a built handle exactly when it starts like one and holds no colon, or is empty |
| LustreHandles.StripBuiltIff | pkg/csi/driver/lustre_node.go:456-464 | stripping a built handle leaves the mount handle exactly when the OCID holds neither colon nor at-sign |
| LustreHandles.ValidIsNotStripped | pkg/csi/driver/lustre_node.go:456-464 | every valid mount handle, with any number of NIDs, is left unchanged |
| LustreHandles.BuiltStripsToValid | pkg/csi/driver/lustre_node.go:456-464 | a handle built from well-formed parts gives back its OCID and strips, once and for all, to a valid mount handle whose validation returns the LNet label |
| LoadBalancerNames.Client.GetLoadBalancerByName | pkg/oci/client/load_balancer.go:100-160 | outcome and cache after the confirmed entry, the pruning on 404 and the paged search |
| LoadBalancerNames.LookupIsCurrent | pkg/oci/client/load_balancer.go:100-160 | whatever the cache holds, a result has the name and compartment now, not found means that none has, and a failure is that of a page request with no match on the pages before |
| LoadBalancerNames.CacheAnswers | pkg/oci/client/load_balancer.go:107-117 | an entry that can be read and still has the name and compartment is the answer, without a search |
| LoadBalancerNames.CacheIsInvisible | pkg/oci/client/network_load_balancer.go:73-133 | with a unique match the outcome is that of a search without a cache, unless a confirmed entry answers where the listing fails |
| LoadBalancerNames.ForgetsOnlyOn404 | pkg/oci/client/load_balancer.go:125-128 | an entry disappears exactly on 404 with nothing found to replace it, and no other entry changes |
| LoadBalancerNames.RemembersFound | pkg/oci/client/load_balancer.go:100-160 | what is found is in the cache afterwards, and nothing else is added |
| LoadBalancerNames.RunsMatchSearches | pkg/oci/client/load_balancer.go:100-160 | over every sequence of lookups against a changing cloud, with page requests failing anywhere, the answers are those without a cache, or a current match where that search fails |
| VolumeCapacity.ExtractMeans | pkg/csi-util/utils.go:442-489 | an error exactly on contradicting bounds; otherwise at least minimum and requirement, and above a limit exactly when that is below the minimum |
| VolumeCapacity.ExtractIs | pkg/csi-util/utils.go:442-489 | the size is the limit if it is set, else the requirement, but at least 50 GiB |
| VolumeCapacity.NoMaximum | pkg/csi-util/utils.go:442-489 | with all comparisons of the source in place, for every range: an error exactly when 0 < limit < required, and a bound above the largest supported size is taken as it is |
| VolumeCapacity.RoundUpIff | pkg/csi-util/utils.go:491-493 | the least covering number of GiB exactly up to 2^63 - 2^30 bytes, and negative above |
| VolumeCapacity.ProvisionedCoversIff | pkg/csi/driver/bv_controller.go:1500-1504 | the least whole-GiB size that covers the request and the minimum, exactly up to that bound |
| VolumeCapacity.ExpandNeverShrinks | pkg/csi/driver/bv_controller.go:1415-1485 | a volume never shrinks, whatever fails |
| VolumeCapacity.ExpandCoversIff | pkg/csi/driver/bv_controller.go:1437-1485 | the reported capacity lies between request and real size exactly up to that bound, and no GiB too many is allocated |
| VolumeCapacity.ExpandMeans | pkg/csi/driver/bv_controller.go:1437-1485 | a volume that covers the request is left alone and reports its size; a smaller one grows to the least size that covers it; a failure is an error, after which it has grown unless the update was not applied |
| VolumeCapacity.RetryConverges | pkg/csi/driver/bv_controller.go:1437-1485 | a retry after any failure ends at the size a first success would have reached |

## Left out

- Security-list runs take the calls as sequential; the mutex that serializes them is not modelled.
- SecurityListManager.Manager.Update: a failing write changes nothing; in the runs one that was applied all the same is a call that stops one list later or is not acknowledged.
- The frontend-only and no-op security-list managers; the frontend one runs the same load balancer pass with no node subnets.
- Ties between creation times of security lists go to the first one; the source's sort leaves them open.
- Narrowing of ports to 32 bits; ports are integers, with zero for an unset one.
- The service lister is asked once for each call; the source asks it for every rule it considers dropping, so that answers could change within one Update.
- Descriptions, protocols and options of rules that the calculators and comparisons do not look at are opaque values.
- Publishing and unpublishing run one at a time for a volume, are for volumes that cannot be shared, and start from a node whose instance and compartment are known; multipath volumes, attachment type selection and publish contexts are not modelled.
- File-storage requests for one volume run one at a time; nobody but the driver deletes its resources, and a name listing is a single page, since the lookups never pass on the page token.
- Subnet, IP family and private IP checks of mount targets are remote calls that may fail.
- NodeStaging.Node.NodeStageVolume: a failing format or mount leaves nothing mounted; of multipath and paravirtualized mount handlers only the waits are modelled, as arbitrary functions, not their empty login and logout.
- ErrorTruncation.TruncateError: models the message only; the status code of the error, which a truncated one loses, is not modelled.
- LustreHandles.ValidateLustreVolumeId: the label returned with a negative verdict is not specified.
- Handles are sequences of characters; the source works on bytes, which is the same for the separators used.
- LoadBalancerNames.Client.GetLoadBalancerByName: one call meets one state of the cloud; a change between the page requests of one call is not modelled.
- Publishing on the node, node expansion and snapshots; only their locks are modelled.
- Storage-class parameters, tags from configuration, Lustre parameters and LNet configuration.
- The load balancer, backend set and listener reconciliation, node addresses, zones and identity.
- Logging, metrics, rate limiters, retries of the SDK, tokens, command-line programs and servers.
