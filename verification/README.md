# Gardener IPAM: a verified model of the CIDR life cycle

The platform service hands out CIDR blocks to clusters. An injection rule acquires blocks,
possibly nested, from configured parent networks. Each block is recorded twice: in an
annotation on the `Cluster` and on the sorted patch list of a `ClusterConfig`. A repair
restores a lost piece of one copy from the other, a release frees the blocks of a cluster
that is gone, and the in-memory allocator is rebuilt from the patch lists. What the service
is for is that blocks of different clusters never overlap (README.md:5-7 of the repository).
The model covers this whole cycle, and the main theorems are about every run of it.

## How the model is built

- `Prefixes`, `Forest`: a CIDR is an address with a prefix length and zero host bits
  (section 3.1 of RFC 4632). The allocator's state is a map from registered prefix to
  optional parent. In a *well-formed* state every parent link names the tightest registered
  prefix around the block. Such a state is determined by its key set (`Forest.CanonicalForm`),
  so that two allocators with the same blocks are equal, links included. The rebuild theorems
  rest on this.
- `GoIpam`: the library the repository delegates to. Its code is not part of this model; the
  contracts of the class `Library` are the assumptions made of it, and its bodies only show
  that they can be met. Acquiring may choose any fitting block and fails only if none fits.
  Releasing is pinned down only for a block with a registered parent and no registered
  children. Otherwise the library may release it, refuse, or report it as not found.
- `Config`, `ConfigValidation`: the configuration and its validating webhook.
- `Patches`, `StableSort`, `SortInPlace`, `SortTheorems`: ClusterConfigs, their patch lists, and
  the stable sort of Go's library (`slices.SortStableFunc`): blocks of 20 sorted by insertion, then
  merged in place by binary searches. The library's code is not part of the repository; the
  algorithm is written out because its result is not determined by the comparison alone.
- `Generation`, `GenerationTheorems`, `FirstFit`, `AcceptedRules`: acquiring the blocks of one rule,
  which network each is taken from, rolling back, and what an accepted configuration means for it.
- `Repair`, `InjectionManagement`, `InjectionTheorems`, `PathTheorems`: one reconcile.
  `AskedPaths` says, by the fields of a rule alone, what its paths are, what the validator and the
  path check make of them, and what is recorded.
- `Release`, `Rebuild`, `RebuildTheorems`: giving blocks back, and rebuilding the allocator.
- `Chains`, `System`: the state machine. A state has the configured parents, the allocator, the
  annotations and the ClusterConfigs. The environment creates and deletes clusters, loses an
  annotation, a ClusterConfig or a patch, has a ClusterConfig deleted, and sets and clears the
  finalizers of other controllers. The code reconciles, releases, repairs and rebuilds, takes
  over a new configuration while the allocator stays as it is, and restarts. A reconcile or a
  repair may be written only in part, each object as before or as intended. An owner (a
  cluster and a rule) *holds* a block while its annotation records it, or its ClusterConfig
  lists it and has the CIDR management finalizer.
- `SystemInvariant`, `ReconcileInvariant`, `SystemTheorems`: the invariant and what it gives
  for every state of every *safe* run. `System.SafeStep` says which steps are safe: a cluster is
  not created under a name that released ClusterConfigs are left of; what is released has the
  finalizer, or nothing on its list is registered; a rebuild finds the clusters that match no
  rule complete; a new configuration has no parent that a held block contains or equals, and
  none that was acquired as a block. All other steps are safe, failed ones included.
- `Capacity`, `CleanRuns`: how many blocks fit, in all runs; and in which runs nothing is ever
  left over.
- `Recreation`: a cluster created again under a name that released ClusterConfigs are left of.
- `ExampleRuns`, `LeftoverRuns`: concrete runs. In four of them one step is not safe, and a block
  gets a second owner, or overlaps that of another one.
- `RebuiltBlocks`, `OneRebuild`: rebuilds from any state, outside the invariant as well: what a
  successful one registers, that it refuses lists which claim the same room, and that all orders of
  iteration have the same result.
- `Controller`: the imperative operations on the shared allocator and the platform cluster.
  Each is proved to be a sequence of steps of the state machine, with what makes them safe
  (`Operations`), and to fail exactly if one of its steps does (`Failures`). What the API server
  refuses is a parameter, so every failure has a cause: a refused write, a block that the library
  may not release, or a rebuild that fails in every order.

Methods follow the code's loops and are proved against specification predicates
(`GenerateSpec`, `CheckSpec`, `ManageSpec`, `ListReleased`, `RebuildFrom`, ...); the theorems
are about those. A Go map is iterated in an order left open, so a theorem holds for all
orders. The specifications are relations wherever the code leaves a choice open.

## Where the code differs from what is promised

Each of these has a lemma with a concrete input or run, and a lemma with the exact condition
under which the promise holds (for the sort, up to 20 patches; beyond them the condition is
sufficient).

- *Release without the finalizer.* The comment at internal/shared/utils.go:209-210 promises a
  no-op for a ClusterConfig without the CIDR management finalizer; the body has no such check.
  It is sure to be a no-op exactly if none of the listed blocks is registered
  (`Release.ReleaseWithoutFinalizer`), and sure to leave the blocks of others alone exactly if
  no other owner holds a listed one (`SystemTheorems.ReleaseSafeIff`). A ClusterConfig that
  another controller's finalizer keeps is released again whenever the deleted cluster is
  reconciled (internal/controllers/cluster/controller.go:257-264): after such a second release
  one block can get two owners (`ExampleRuns.SecondRelease`). So it can if the cluster is created
  again and its reconcile merges that ClusterConfig into the annotation
  (`ExampleRuns.Recreated`). Such a reconcile, at any later time and as long as it acquires nothing,
  is harmless exactly if all blocks on the leftover lists are registered, overlap nothing that is
  held, and, on different lists, do not overlap each other (`Recreation.RecreationSafeIff`,
  `Recreation.RecreatedLater`). In safe runs whatever has the finalizer can be released
  (`SystemTheorems.ReleaseSafeInReachable`).
- *Removed parents.* docs/config/config.md:101 allows a parent to be removed from the
  configuration. A block without a registered parent is not added to the list that the next
  patches search (internal/shared/restore.go:361-368, whereas the comment at line 364 relies on
  that list). If such a block has another one inside it on the same list, every rebuild fails:
  `ExampleRuns.RemovedParentExample` is a safe run to that end with 10.0.0.0/16, 10.0.0.0/24 and
  10.0.0.0/28. A rebuild fails exactly if a held list has two nested blocks under no configured
  parent (`RebuildTheorems.RebuildExact`, `SystemTheorems.RebuildInReachable`).
- *Added parents.* docs/config/config.md:99 says that new parents are used for new clusters as
  usual. The generator passes over a parent that is not registered
  (internal/controllers/cluster/controller.go:447-451), and only a rebuild registers one. A
  configured parent that a rule names is tried exactly if it is registered
  (`GenerationTheorems.ParentTriedIffRegistered`); in `ExampleRuns.AddedParent` the only parent is
  free, and a rule that names it gets nothing.
- *Shared paths.* The paths in use are computed once per reconcile
  (internal/controllers/cluster/controller.go:329-331) while the comment at lines 346-349 speaks
  of paths used by another rule. Two rules new to a cluster may name the same path
  (`PathTheorems.TwoNewRulesShareAPath`). The paths of different rules stay disjoint if no two
  rules about to be applied ask for the same path, and in runs without an error exactly then
  (`PathTheorems.PathsStayDisjoint`).
- *Left inside.* The rollback at internal/controllers/cluster/controller.go:481-489 is there to give
  everything back. It is sure to restore the allocator exactly if no block was acquired from another
  block of the rule, nor is the parent of one registered before
  (`GenerationTheorems.RollbackRestoresIff`). The release of a nested list may leave such a one: the
  outer block is freed, and the inner one is then reported as not found. After the safe run
  `LeftoverRuns.RollbackMayKeep` a rule without local parents fails, and its block stays. And a new
  configuration may name the block left behind as a parent, from which another cluster then gets what
  overlaps a held block (`LeftoverRuns.LeftoverAsParentExample`, with 10.0.0.0/28 left behind and
  10.0.0.0/31 around 10.0.0.0/32). If nothing is left over, as after any successful rebuild, a new
  configuration is safe exactly if it fits what is held (`CleanRuns.ChangeSafeIff`,
  `CleanRuns.ChangeAfterRebuild`).
- *Patches of unknown size.* The comment at internal/shared/utils.go:270-273 promises larger blocks
  first. The comparison at lines 297-299 treats a patch of unknown size as equal to any other, and up
  to 20 patches are inserted one by one, so that none moves across it
  (`SortTheorems.UnreadableKeepsSmallFirst`: sizes 24, unknown, 16 stay as they are). If no patch of
  unknown size keeps two others apart in the wrong order, the sort gives what insertion gives, for any
  length (`SortTheorems.SortIsInsertionSort`), and the readable patches end up in order; up to 20
  patches exactly then (`SortTheorems.SortWorksIffNoWallBetween`). Longer lists are merged by binary
  searches, which may step over a patch of unknown size and move it: `SortTheorems.UnreadableIsPassed`
  has 21 patches that end up in order nevertheless.
- *Lost and unmatched.* A restore repairs only clusters that match a rule
  (internal/shared/restore.go:235-288). On success all held blocks are registered exactly if,
  before the call, nothing was lost of the other clusters (`SystemTheorems.RestoreCoverage`, and
  the contract of `Controller.IPAMController.RestoreIPAMFromClusterState`). In
  `ExampleRuns.UnmatchedLost` the ClusterConfig of such a cluster is lost, and a rebuild gives its
  block to another cluster.

## Model

| member | source | states |
|---|---|---|
| Prefixes.NestedOrDisjoint | internal/shared/restore.go:388-405 | two prefixes that overlap are nested, the one with the shorter length outside: why an overlap test finds an enclosing block |
| Prefixes.CapacityBound | internal/webhooks/config-validation.go:99-110 | pairwise disjoint blocks that each lie in one of several disjoint prefixes take no more room in sum than these have |
| Prefixes.SizesCountAddresses | internal/webhooks/config-validation.go:99-110 | the summed sizes of pairwise disjoint blocks are the number of addresses they occupy |
| Forest.LinksAreTightest | internal/shared/restore.go:373-380 | an allocator is a forest if and only if every parent link is the smallest registered prefix around the block |
| Forest.CanonicalForm | internal/shared/restore.go:313-321 | two well-formed allocators with the same registered blocks are equal, all parent links included |
| Forest.AddChild | internal/shared/ipam.go:73-92 | acquiring a fitting block keeps the allocator a forest |
| Forest.NewBlockMeetsAncestorsOnly | internal/controllers/cluster/controller.go:455-476 | a newly acquired block overlaps no registered prefix but its parent and those around the parent |
| Forest.FirstLevelCapacity | internal/controllers/cluster/controller.go:455-466 | the summed sizes of the blocks acquired directly from disjoint parents are at most the summed sizes of the parents |
| Forest.ChildCapacity | internal/controllers/cluster/controller.go:455-466 | the children of a prefix of length p are no larger in sum than it, and at most 2^(s-p) of them have length s |
| GoIpam.Library.AcquireChildPrefix | internal/shared/ipam.go:73-78 | assumed of the library: fails, without effect, exactly if no block of that length is free in the parent, otherwise registers one that fits |
| GoIpam.Library.AcquireSpecificChildPrefix | internal/shared/ipam.go:87-92 | assumed of the library: succeeds exactly if the block lies strictly inside the registered parent and clear of its children |
| GoIpam.Library.NewPrefix | internal/shared/ipam.go:143-148 | assumed of the library: succeeds exactly if nothing registered overlaps the prefix |
| GoIpam.Library.PrefixFrom | internal/shared/ipam.go:150-155 | assumed of the library: tells whether exactly this prefix is registered |
| GoIpam.Library.ReleaseChildPrefix | internal/shared/ipam.go:164-169 | assumed of the library: removes at most this prefix, and certainly if it has a registered parent and no children |
| ConfigValidation.ValidateSpec | internal/webhooks/config-validation.go:63-90 | the error list is empty if and only if the configuration is acceptable: disjoint parents, unique ids, a path per injection, no path twice, and every named parent usable, for every iteration order of the parent map |
| ConfigValidation.ValidateParentCIDRs | internal/webhooks/config-validation.go:92-113 | no errors exactly if all parent CIDRs are pairwise disjoint |
| ConfigValidation.ValidateInjectionRules | internal/webhooks/config-validation.go:115-130 | no errors exactly if the rule ids are unique and the injections of every rule are acceptable |
| ConfigValidation.ValidateInjections | internal/webhooks/config-validation.go:132-191 | no errors exactly if the injections of a rule are acceptable; what that says of the paths is in `AskedPaths.AcceptedPaths` |
| AskedPaths.GetPathsExact | api/ipam/v1alpha1/config_types.go:115-125 | the paths of an injection are `path`, unless it is empty, and every entry of `paths`, each as often as it is named |
| AskedPaths.AcceptedPaths | internal/webhooks/config-validation.go:150-171 | the validator finds nothing wrong with the paths of a rule if and only if every injection has one, in either field, and no path is asked for at two places of the rule |
| ConfigValidation.AcceptedStep | internal/webhooks/config-validation.go:135-187 | adding an injection keeps a list acceptable exactly if the injection passes the checks against those before it |
| ConfigValidation.ParentsMeanTheSame | internal/webhooks/config-validation.go:173-187 | the lookups in the two size maps decide exactly whether each named parent is global or an earlier injection with a strictly shorter length |
| GenerationTheorems.AcceptedMeansWellFormed | internal/controllers/cluster/controller.go:434-458 | if every named parent is usable, no parent id is unknown and every acquisition asks for a longer length than the candidate's |
| AcceptedRules.NormalizedParentsUsable | internal/controllers/cluster/controller.go:359-373 | normalising the paths of a rule, as a reconcile does, leaves its parents usable |
| AcceptedRules.AcceptedRuleIsWellAsked | internal/controllers/cluster/controller.go:393-394 | a reconcile that applies a rule of an accepted configuration meets no unknown parent and asks only for lengths longer than the candidate's, for every injection that names its parents |
| AcceptedRules.AcceptedConfigRuns | internal/webhooks/config-validation.go:92-130 | an accepted configuration has parents without overlap and rules with distinct ids, which is what the state machine asks of it |
| GenerationTheorems.ParentTriedIffRegistered | internal/controllers/cluster/controller.go:440-454 | a configured parent that a rule names is a candidate if and only if the allocator has it registered |
| GenerationTheorems.LocalChainsAreShort | internal/webhooks/config-validation.go:173-187 | in an accepted rule a chain of local parents has at most 33 members |
| Patches.SortPatchesInPlace | internal/shared/utils.go:274-305 | sorts the patch array in place, by loops of swaps, to what Go's stable sort gives for the comparison |
| SortTheorems.SortOrders | internal/shared/utils.go:270-305 | with readable sizes the result, of any length, is ordered by mask length and then by path |
| Patches.OrderedUnique | internal/shared/utils.go:294-304 | with distinct paths there is only one ordered list of the same patches |
| SortTheorems.ListingOrderIrrelevant | internal/shared/utils.go:173-186 | every iteration order of the injections map gives the same sorted patch list |
| Patches.EnclosingFirst | internal/shared/utils.go:270-273 | in an ordered list an enclosing block comes before the blocks inside it |
| Patches.ComparedByMaskThenPath | internal/shared/utils.go:294-304 | a patch comes before another if and only if both add a string with a mask length, and its mask is shorter, or the same and its path the smaller one at the first position where the paths differ |
| Patches.FirstDifferenceDecides | internal/shared/utils.go:303 | of two strings the smaller one has, at the first difference, the smaller character or its end |
| Patches.GenerateClusterConfig | internal/shared/utils.go:143-189 | the new ClusterConfig holds the finalizer and one add patch per injection, sorted |
| SortTheorems.SortBetweenWalls | internal/shared/utils.go:273-304 | an insertion sort, and so the library's up to 20 patches or if no patch of unknown size stands between two in the wrong order, keeps every patch of unknown size in its place and orders the readable ones between two of them |
| SortTheorems.SortWorksIffNoWallBetween | internal/shared/utils.go:294-304 | if no patch of unknown size stands between two that have to change places, the readable patches of the result are in order, for any length; up to 20 patches only then |
| SortTheorems.UnreadableKeepsSmallFirst | internal/shared/utils.go:297-299 | sizes 24, unknown, 16 stay in place |
| SortTheorems.UnreadableIsPassed | internal/shared/utils.go:291-304 | twenty /24, the fourth one unreadable, and then a /16: the merge puts the /16 first, so that all readable ones are in order although it stood behind the unreadable one, which has moved |
| SortTheorems.SortIsInsertionSort | internal/shared/utils.go:291-304 | the library's sort gives the result of an insertion sort for up to 20 patches, and for any length if no patch of unknown size keeps two apart in the wrong order |
| StableSort.SortIsInsertion | internal/shared/utils.go:291 | for any comparison that on later against earlier elements comes from a strict order, blocks of 20 and merges give what insertion gives |
| StableSort.MergeSorts | internal/shared/utils.go:291 | a merge by split point, exchange and recursion into both halves makes one ascending run of two |
| StableSort.SortPermutes | internal/shared/utils.go:291 | whatever the comparison, the sort returns the same elements |
| SortInPlace.SortArray | internal/shared/utils.go:291 | the sort on the array, with its searches, moves and exchanges in place, gives what the function on lists gives |
| Generation.GenerateCIDRsForInjectionRule | internal/controllers/cluster/controller.go:419-495 | each injection gets a block of its size from the first candidate with room, candidates taken in the order of the parent ids and their lists, local parents first; otherwise what was acquired is released in some order of the path map |
| Generation.TryParents | internal/controllers/cluster/controller.go:434-476 | finds the first candidate of the flattened list that has room, or none has; `FirstFit` says which network that is |
| FirstFit.PickIsFirstWithRoom | internal/controllers/cluster/controller.go:430-466 | an acquisition is one the code can make if and only if its ids are those the injection lists (all configured ones in any order if it lists none), the block has the size asked for and fits, and the network is at a position in the lists such that no network before it, of the same id or an earlier one, has room; an id stands for the latest block with that injection id alone, otherwise for the configured list |
| FirstFit.EveryPickIsFirst | api/ipam/v1alpha1/config_types.go:69-74 | so it is with every block of a rule, in the allocator as the blocks before it have left it |
| FirstFit.StuckIffNothingHasRoom | internal/controllers/cluster/controller.go:430-480 | generation gives up on an injection if and only if no network of any id it lists has room, or, if it lists none, of any configured id |
| Generation.ReleaseAcquired | internal/controllers/cluster/controller.go:481-486 | releases the block of every path once, in some order, ignoring errors |
| GenerationTheorems.TracePlaced | internal/controllers/cluster/controller.go:425-476 | generation keeps the forest; each block lies strictly inside a configured parent and meets, of what was registered before, only that parent and what is around it |
| GenerationTheorems.GeneratedBlocks | internal/controllers/cluster/controller.go:463-466 | exactly the rule's paths are recorded, each with the block of its injection, of the size asked for |
| GenerationTheorems.GeneratedFrame | internal/controllers/cluster/controller.go:455-476 | success registers exactly the new blocks and changes no other prefix or link |
| GenerationTheorems.FailureFrame | internal/controllers/cluster/controller.go:477-489 | a failure removes no prefix that was registered before and leaves at most blocks of this rule behind |
| GenerationTheorems.RollbackRestores | internal/controllers/cluster/controller.go:481-489 | if no block was acquired from another block of the rule, nor is the parent of a block registered before, a failure restores the allocator exactly, for every visiting order and with a block listed under several paths |
| GenerationTheorems.RollbackRestoresIff | internal/controllers/cluster/controller.go:477-489 | a failure is sure to restore the allocator, whatever order the paths are visited in and whatever the library does, if and only if no block was acquired from another block of the rule and none is the parent of a block registered before |
| LeftoverRuns.RollbackMayKeep | internal/controllers/cluster/controller.go:477-489 | a safe run that releases a nested list and leaves the inner block; a rule without local parents that gets the outer block and then fails may leave it registered |
| Repair.CheckClusterConfigsForCluster | internal/shared/restore.go:70-200 | creates exactly the missing ClusterConfigs with a recorded path, updates exactly those lacking a recorded path or, outside deletion, the finalizer, with exactly the missing patches added |
| Repair.RepairComplete | internal/shared/restore.go:97-198 | afterwards every recorded path has a patch, all old patches are still there, every new one restores a recorded injection, and the finalizer is held outside deletion |
| Repair.RepairIdempotent | internal/shared/restore.go:192-199 | checking the repaired ClusterConfigs again gives an empty instruction |
| Repair.RepairTouchesIncomplete | internal/shared/restore.go:129-190 | new are exactly the ClusterConfigs of rules with a recorded path that had none; one that has a patch for every recorded path, and the finalizer or is in deletion, stays as it is |
| Repair.RepairKeepsPatches | internal/shared/restore.go:154-171 | no existing patch is removed or altered |
| Repair.RepairRestoresFinalizer | internal/shared/restore.go:178-190 | a ClusterConfig has the finalizer afterwards if and only if it had it or is not in deletion, and nothing else in its metadata changes |
| Repair.NothingLeft | internal/shared/restore.go:43-63 | after the instruction was carried out no ClusterConfig needs a repair |
| InjectionManagement.MergeClusterConfigs | internal/controllers/cluster/controller.go:303-326 | the annotation gains the rules and paths only the ClusterConfigs name and keeps every value it has; an unreadable value of a path not yet recorded is an error |
| InjectionTheorems.MergeFailsIff | internal/controllers/cluster/controller.go:312-326 | a ClusterConfig cannot be merged if and only if, at some path not recorded, its first patch has a value that is no string |
| InjectionTheorems.MergeTakesFirst | internal/controllers/cluster/controller.go:312-321 | otherwise a path not recorded gets the value of its first patch |
| InjectionManagement.CheckRulePaths | internal/controllers/cluster/controller.go:358-386 | finds an issue exactly if the rule's converted paths repeat or meet a path in use, and an unconvertible path only if there is one |
| AskedPaths.IssueExact | internal/controllers/cluster/controller.go:358-386 | there is an issue if and only if paths at two places of the rule are converted to the same one, or one of them to a path in use |
| AskedPaths.TurnedAwayIff | internal/controllers/cluster/controller.go:328-391 | a rule is skipped if and only if its id was applied before; it is turned away if and only if it was not and a rule with its id was turned away, two of its paths become the same, or one becomes a path that an applied rule has; in both cases it acquires and records nothing |
| AskedPaths.RecordedExactly | internal/controllers/cluster/controller.go:463-466 | of a rule that is applied exactly the paths it asks for are recorded, converted where possible, each with a block of the size that the last injection naming it asks for, and all paths of one injection with the same block |
| InjectionManagement.ApplyRule | internal/controllers/cluster/controller.go:350-411 | a rule is skipped, has an issue, or is generated and recorded in annotation and a new ClusterConfig alike |
| InjectionManagement.ManageInjections | internal/controllers/cluster/controller.go:288-414 | the result is the merge, the repair of it and the run over all rules; without a result nothing changed |
| InjectionTheorems.ReconcileKeepsRecorded | internal/controllers/cluster/controller.go:312-321 | no recorded value is dropped or changed and no existing patch removed or altered, whatever the rules |
| InjectionTheorems.CopiesAgreeAfterwards | internal/controllers/cluster/controller_test.go:482-511 | after a reconcile without error annotation and ClusterConfigs name the same rules (those with an injection) and the same paths for each |
| InjectionTheorems.ValuesAgreeAfterwards | internal/controllers/cluster/controller.go:312-321 | for every rule and path: if there was one value, in the annotation and in the patches, there is one afterwards; so it is with all new ones |
| InjectionTheorems.ReconcileConverges | internal/controllers/cluster/controller.go:350-356 | a second reconcile with the same rules changes neither allocator nor annotation nor ClusterConfigs and reports no error |
| InjectionTheorems.NameTakenIff | internal/shared/restore.go:43-63 | creating the new ClusterConfigs one by one meets an error if and only if a name is taken, by an existing one or an earlier creation |
| InjectionTheorems.FirstCreationCounts | internal/shared/restore.go:43-63 | of several creations under one name the first one counts |
| Failures.ReconcileErrors | internal/controllers/cluster/controller.go:186-240 | under rules with distinct ids a reconcile has an error if and only if the ClusterConfigs cannot be merged or some rule is not recorded afterwards or, unless it was before, has a path that cannot be converted; without an error the two copies agree and nothing is left to repair |
| PathTheorems.NewRulePaths | internal/controllers/cluster/controller.go:380-384 | a rule that is applied, with paths that can be converted, records only its own converted paths, none of which was in use before the run |
| PathTheorems.PathsStayDisjoint | internal/controllers/cluster/controller.go:328-331 | the rules' paths stay disjoint if no two rules about to be applied ask for the same path, also where another rule finds no room; in runs without an error if and only if |
| PathTheorems.TwoNewRulesShareAPath | internal/controllers/cluster/controller.go:350-411 | two new rules with the path /x are both applied, without an error or an issue |
| Rebuild.ReverseList | internal/shared/restore.go:407-415 | the list in reverse order |
| Rebuild.IdentifyParentPrefix | internal/shared/restore.go:388-405 | the first prefix that overlaps the child, in the lists as given |
| Rebuild.IdentifiedIsFirst | internal/shared/restore.go:388-405 | said by positions: the block found overlaps the child, and none before it does, in its list or an earlier one; if none is found, no block of any list does |
| Rebuild.SearchFindsTightest | internal/shared/restore.go:355-380 | searching the reversed local parents and then the configured ones finds the block itself if it is a repeat, otherwise the smallest candidate around it, or nothing if there is none |
| RebuildTheorems.SearchFindsTightestRegistered | internal/shared/restore.go:355-380 | measured against the whole allocator while a list is registered: the search finds the block itself if registered, otherwise the smallest registered prefix around it, if and only if the block lies under a configured parent, or no block of its list before it contains or equals it |
| Rebuild.FetchOrNewPrefix | internal/shared/restore.go:417-432 | succeeds exactly if the prefix is registered or overlaps nothing |
| Rebuild.RegisterConfigParents | internal/shared/restore.go:330-341 | registers the parents of all ids in some order and returns them in that order |
| Rebuild.RegisterPatches | internal/shared/restore.go:345-382 | registers the patches of one ClusterConfig one after the other, with its own list of local parents |
| Rebuild.IpamFromClusterConfigs | internal/shared/restore.go:326-386 | the new allocator is the rebuild from the parents in some order and the given lists, or none if a step fails |
| RebuildTheorems.ParentsRegistered | internal/shared/restore.go:330-341 | registering the parents succeeds if and only if they are pairwise equal or disjoint, and gives exactly these as roots |
| RebuildTheorems.ListRegistered | internal/shared/restore.go:346-382 | a size-sorted list is registered if and only if it is readable and has no two nested blocks under no parent; then exactly its blocks are added to the forest |
| RebuildTheorems.RebuildExact | internal/shared/restore.go:326-386 | the rebuild succeeds if and only if the parents are equal or disjoint and every list is of that kind, and gives the forest of exactly the parents and the listed blocks |
| RebuildTheorems.RebuildRoundTrip | internal/shared/restore.go:343-385 | the rebuild from the patch lists of a live allocator gives that allocator back, every parent link included, for any depth of nesting and repeated blocks |
| OneRebuild.RebuildOrderIrrelevant | internal/shared/restore.go:314-344 | whatever the lists are, any two orders of parent ids and ClusterConfigs give the same allocator, parent links included, or fail both |
| OneRebuild.RebuildHasOneResult | internal/shared/restore.go:313-321 | from any state a rebuild has one result: it cannot fail in one order of iteration and succeed in another, nor succeed with two allocators |
| RebuiltBlocks.RebuiltExactly | internal/shared/restore.go:242-321 | in whatever state a rebuild succeeds, registered are exactly the configured parents and the blocks added by the ClusterConfigs of the matching clusters, with or without the finalizer, and of all others that have it |
| RebuiltBlocks.RebuiltIsForest | internal/shared/restore.go:373-380 | in whatever state a rebuild succeeds, every parent link names the smallest registered block around |
| RebuiltBlocks.RebuildRefusesOverlaps | internal/shared/restore.go:343-385 | in whatever state a rebuild succeeds, blocks on the lists of two ClusterConfigs do not overlap if they overlap configured parents and are none themselves: lists that claim the same room make it fail |
| RebuildTheorems.NestedBlocksNeedAParent | internal/shared/restore.go:361-368 | two nested blocks on one list cannot be rebuilt without a parent, and can be with the outer one configured |
| RebuildTheorems.NestedBlocksExample | internal/shared/restore.go:361-368 | 10.0.0.0/24 and 10.0.0.0/28 on one list under no parent make the rebuild fail |
| Release.ReleaseCIDRsForClusterConfig | internal/shared/utils.go:224-268 | all or nothing: on an error allocator and ClusterConfig are untouched; otherwise the patches are released one after the other on a copy that replaces the allocator, and the finalizer is gone |
| Release.ReleaseFrame | internal/shared/utils.go:237-255 | a release removes listed blocks only and changes no parent link |
| Release.ReleaseExact | internal/shared/utils.go:213-214 | if the registered blocks on the list are leaves with registered parents, exactly the listed blocks are gone, repeats and unregistered ones included |
| Release.ListedMembers | internal/shared/utils.go:237-246 | a patch with a block as its value lists it, whatever its operation |
| Release.SucceedsIffReadable | internal/shared/utils.go:237-245 | the library can make a release succeed if and only if no patch has a value other than a string |
| Release.ReleasedIffLeaves | internal/shared/utils.go:213-214 | a list with larger blocks first, nested or not, is sure to be released completely if and only if its registered blocks are leaves with registered parents |
| Release.FailsIffNoLeaves | internal/shared/utils.go:237-255 | and the library can make its release fail if and only if they are not |
| Release.ReleaseWithoutFinalizer | internal/shared/utils.go:207-211 | without the finalizer a release is sure to be a no-op if and only if none of the listed blocks is registered |
| Release.SecondReleaseFreesAnother | internal/shared/utils.go:209-210 | releasing again after the block went to another owner frees it there, and it can be handed out once more |
| Failures.LeavesAreReleased | internal/shared/utils.go:224-268 | releasing ClusterConfigs one after the other, in any order, with nothing refused and readable lists whose registered blocks are leaves, fails nowhere and removes exactly the listed blocks |
| SystemInvariant.RebuiltForest | internal/shared/restore.go:326-386 | from the data the invariant describes, a rebuild yields the forest of exactly the parents and the blocks on held patch lists, or fails exactly on nested blocks under no parent |
| SystemInvariant.ReadyIsCovered | internal/shared/restore.go:249-288 | once the matching clusters are repaired, and with the others complete, every recorded block is on a held patch list |
| SystemInvariant.ReleaseInv | internal/shared/utils.go:224-268 | releasing a ClusterConfig of a cluster that is gone keeps the invariant, if it has the finalizer or lists nothing registered |
| SystemInvariant.MetadataInv | internal/shared/restore.go:504-509 | losing or deleting a ClusterConfig, and other controllers' finalizers coming and going, keep the invariant |
| SystemInvariant.ChangeInv | internal/controllers/config/controller.go:139-141 | taking over a configuration that fits what is held, without a rebuild, keeps the invariant |
| CleanRuns.ChangeSafeIff | internal/controllers/config/controller.go:139-141 | if nothing is left over in the allocator, a new configuration is safe if and only if it fits what is held |
| CleanRuns.ChangeAfterRebuild | internal/controllers/config/controller.go:139-156 | so it is after any successful rebuild, whatever was left over before |
| SystemInvariant.RepairInv | internal/shared/restore.go:70-200 | a repair keeps the invariant |
| SystemInvariant.RebuildInv | internal/shared/restore.go:313-323 | replacing the allocator by the rebuilt one keeps the invariant |
| SystemInvariant.RestartInv | internal/shared/restore.go:202-324 | a restart with another fitting configuration keeps the invariant |
| ReconcileInvariant.ReconcileInv | internal/controllers/cluster/controller.go:168-242 | a reconcile with any rules, failing ones included, keeps the invariant |
| ReconcileInvariant.ReconcilePartlyInv | internal/controllers/cluster/controller.go:190-221 | and so does a reconcile of which the API server has taken only some of the objects written |
| ReconcileInvariant.RepairPartlyInv | internal/shared/restore.go:43-63 | a repair of which only some objects were written keeps the invariant |
| SystemTheorems.RunInv | internal/controllers/cluster/controller.go:350-411 | every state of every safe run satisfies the invariant |
| SystemTheorems.WholeRunSafety | README.md:5-7 | in every state of every safe run blocks held by different (cluster, rule) pairs do not overlap, two blocks of one pair overlap only if equal or one an ancestor of the other in the allocator, and every held block is registered; configurations may change at any time, and writes may fail |
| SystemTheorems.EnclosingIsAncestor | internal/shared/restore.go:373-380 | in a forest an enclosing registered block is an ancestor along the parent links |
| Capacity.WholeRunCapacity | internal/controllers/cluster/controller.go:455-466 | in every state of every run, safe or not, all registered blocks acquired from the configured parents, leftovers included, fit into the parents by summed size, and any prefix of length p has at most 2^(s-p) registered children of length s |
| Capacity.RebuildIsApart | internal/shared/restore.go:326-386 | whatever the patch lists say, a rebuild registers blocks strictly inside their parents and clear of their siblings |
| Capacity.GenerateKeepsApart | internal/controllers/cluster/controller.go:419-495 | generating the blocks of a rule, failed or not, keeps the children of every prefix disjoint and inside it |
| SystemTheorems.ReleaseSafeIff | internal/shared/utils.go:209-211 | a release, whatever the library does, is sure to leave all other owners' blocks registered if and only if no other owner holds a listed block |
| SystemTheorems.ReleaseSafeInReachable | internal/controllers/cluster/controller.go:256-265 | in every state of a safe run no other owner holds a block on the list of a ClusterConfig with the finalizer, and the ClusterConfigs of existing clusters have it |
| SystemTheorems.RebuildInReachable | internal/shared/restore.go:313-323 | in every state of a safe run a rebuild fails if and only if a held list has nested blocks under no configured parent, and otherwise gives exactly the parents and the blocks on held lists |
| SystemTheorems.RestoreCoverage | internal/shared/restore.go:249-311 | after a restore all held blocks are registered if and only if, before it, nothing was lost of the clusters that match no rule |
| SystemTheorems.RebuildReturnsLive | internal/shared/restore.go:343-385 | in every state of a safe run a rebuild that succeeds returns exactly the live allocator if and only if every recorded block is on a patch list, the configured parents are registered, and nothing else is registered besides them and the held blocks |
| CleanRuns.RuleIsClean | internal/controllers/cluster/controller.go:455-489 | a rule with distinct paths, one at least per injection, leaves no unrecorded block behind, unless it has local parents and fails |
| CleanRuns.FlatIsLeaves | internal/shared/utils.go:237-255 | a held patch list that is not nested and lies under registered parents consists of leaves |
| CleanRuns.CleanRunLeavesNothing | internal/controllers/cluster/controller.go:350-411 | in a safe run whose rules have distinct paths, in which no rule with local parents fails, only lists that are not nested are released, what is lost, or was not written, is recorded in the other copy, and parents are only added, nothing is ever left over and no owner holds nested blocks outside all parents |
| CleanRuns.CleanRunRoundTrip | internal/shared/restore.go:343-385 | in such a run the rebuild always succeeds, and it gives back exactly the live allocator, the parent of every block included, if and only if all configured parents are registered |
| SystemTheorems.RecordedForever | internal/controllers/cluster/controller.go:346-356 | once recorded, a (cluster, rule, path) keeps its value under any sequence of steps and configurations while the cluster and its annotation exist |
| SystemTheorems.ReconcileKeepsPatches | internal/shared/restore.go:156-171 | no reconcile removes or alters a patch |
| Controller.IPAMController.HandleCreateOrUpdate | internal/controllers/cluster/controller.go:168-242 | is one reconcile step of the state machine, or the part of it that the API server accepts: annotation and every ClusterConfig are exactly as intended or, if refused, as before; with distinct rule ids there is no error if and only if the ClusterConfigs can be merged, everything was written, and every rule is recorded and, unless it was before, has only convertible paths; then both copies name the same rules and paths |
| Controller.IPAMController.HandleDelete | internal/controllers/cluster/controller.go:244-268 | releases every ClusterConfig of the cluster once; the steps are safe if all had the finalizer; there is an error if and only if one of them failed, and then the removal of its finalizer was refused or the library may not release its list; with nothing refused and readable lists of leaves there is none, and exactly the listed blocks are gone; without an error those that are left wait for other controllers only |
| Controller.IPAMController.HandleOrphanedClusterConfigs | internal/shared/restore.go:447-516 | handles every listed ClusterConfig whose cluster is gone once, by a safe release or deletion, and touches no other; there is an error if and only if a release failed, with a cause as above; with nothing refused and readable lists of leaves there is none, and exactly the listed blocks are gone; returns those that still exist |
| Failures.OrphansAreReleased | internal/shared/restore.go:483-502 | with nothing refused, orphans whose lists are readable and consist of leaves are all released without an error, and exactly what they list is gone |
| Controller.IPAMController.RestoreIPAMFromClusterState | internal/shared/restore.go:206-324 | repairs every matching cluster once, then handles every orphan once, then rebuilds; fails if and only if a needed write of a repair was refused, the release of an orphan failed, or the rebuild fails, which from a state with the invariant means nested blocks under no configured parent; with nothing refused and releasable orphans only the rebuild can fail; a failed rebuild leaves the allocator; otherwise the matching clusters are repaired, no orphan has the finalizer, the allocator is the rebuilt one, and all held blocks are registered if and only if the unmatched clusters were complete before |
| Failures.RebuildFailsIff | internal/shared/restore.go:313-317 | after the repairs and the orphans, from a state with the invariant, the rebuild fails if and only if some held list has nested blocks under no configured parent |
| Controller.IPAMController.StartUp | cmd/platform-service-gardener-ipam/app/run.go:252-257 | fails if and only if the restore into an empty allocator does: with nothing refused and readable orphans if and only if the rebuild fails, and after a state with the invariant and a fitting configuration if and only if a held list has nested blocks under no configured parent; a start that succeeds comes to repairs followed by one restart of the state machine, from whatever state the last process has left, safe, with the invariant and all held blocks registered afterwards, if the configuration fits what is held and the unmatched clusters are complete |
| Controller.IPAMController.SetConfig | internal/controllers/config/controller.go:139-141 | replaces the configuration and leaves the allocator as it is |
| Controller.IPAMController.ReconcileConfig | internal/controllers/config/controller.go:139-156 | changes the configuration and, if a refresh is due, restores the allocator under the new one; fails if and only if that restore does; safe if the change is and, with a refresh, the unmatched clusters are complete; after a refresh from a state with the invariant all held blocks are registered if and only if they were |
| ExampleRuns.SecondRelease | internal/controllers/cluster/controller.go:257-264 | a safe run, one release of a ClusterConfig without the finalizer, and safe steps again: two clusters hold one block |
| ExampleRuns.Recreated | internal/controllers/cluster/controller.go:305-323 | a safe run, a cluster created again while a released ClusterConfig of its name is left, and safe steps again: two clusters hold one block |
| Recreation.RecreationSafeIff | internal/controllers/cluster/controller.go:305-323 | the first reconcile of a cluster created again, if it acquires nothing, leaves the blocks of different owners disjoint and all held ones registered if and only if all leftover blocks are registered and overlap nothing held nor, across lists, each other |
| Recreation.RecreatedLater | internal/controllers/cluster/controller.go:305-323 | so it is after any safe steps between the creation and the reconcile that do not concern the cluster |
| Recreation.SkippedRulesMerge | internal/controllers/cluster/controller.go:350-356 | a reconcile acquires nothing and records only what it has merged if every rule has left a ClusterConfig, or there is no rule |
| ExampleRuns.UnmatchedLost | internal/shared/restore.go:235-288 | a safe run in which a cluster that matches no rule loses its ClusterConfig, a rebuild, and safe steps again: two clusters hold one block |
| LeftoverRuns.LeftoverAsParent | internal/controllers/config/controller.go:139-141 | a safe run that leaves an inner block registered, a configuration that fits what is held and names this block as a parent, and safe steps again: two clusters hold overlapping blocks |
| LeftoverRuns.LeftoverAsParentExample | internal/controllers/config/controller.go:139-141 | so it is with 10.0.0.0/28 as the new parent, and 10.0.0.0/32 and 10.0.0.0/31 as the blocks of two clusters |
| ExampleRuns.RemovedParentExample | internal/shared/restore.go:361-368 | a safe run, with 10.0.0.0/16 configured and then removed, after which every rebuild fails although nothing was lost |
| ExampleRuns.AddedParent | internal/controllers/cluster/controller.go:447-451 | a safe run after which the only configured parent is free, every reconcile under a rule that names it fails, and a rebuild registers it |
| ExampleRuns.UnregisteredParentsGiveNothing | internal/controllers/cluster/controller.go:440-454 | if no configured parent is registered, no rule with an injection gets a block and the allocator stays as it is |

## Left out

- goipam: its code is not part of this model; the contracts of `GoIpam.Library` are assumptions, and IP addresses, namespaces and the lock-forwarding wrappers are left out. Dump and load are an exact copy.
- GoIpam.Library.ReleaseChildPrefix: what happens to a block with registered children or without a registered parent is left open (any outcome is allowed), because the library decides it; a string that is no CIDR is taken to be registered nowhere.
- CleanRuns.CleanRunLeavesNothing: runs that release nested lists, in which a rule with local parents fails, or in which a parent is removed, are outside its scope; for them there is the exact condition of `SystemTheorems.RebuildReturnsLive`.
- SystemTheorems.WholeRunSafety: holds of safe steps; `ExampleRuns` and `LeftoverRuns` have a run for each of four ways to leave them. Excluded are new configurations with a parent that a held block contains or equals, because the parent search tests overlap and not containment, and with a parent that is registered as a block acquired from another one; without leftovers there is none of the latter (`CleanRuns.ChangeSafeIff`). A block that neither copy records any more is held by nobody.
- Recreation.RecreationSafeIff: a first reconcile that acquires blocks besides those it takes over is not covered.
- Controller.IPAMController.StartUp: a failed start is described as a restore into an empty allocator, not as steps of the state machine; orphans released on the way have lost their finalizer.
- ConfigValidation.ValidateSpec: says when there is an error, not which ones are reported, nor their texts.
- Finalizers: the CIDR management finalizer is taken off only by a release; somebody who strips it by hand is not modelled.
- A configuration that is deleted, which stops reconciles, is not modelled; the configuration in use is always one the webhook accepts.
- Controller.IPAMController.HandleOrphanedClusterConfigs: a Get error other than "not found" is not modelled, nor is a ClusterConfig without a target label.
- Kubernetes: client calls, watches, events, logging and retries. A reconcile with its writes is one atomic step, so a rebuild between acquiring and persisting is not modelled. Of API failures, refused writes of a reconcile or a repair, a refused finalizer removal and a ClusterConfig name that is taken occur.
- A ClusterConfig is identified by its cluster and rule id; name generation, shortening and placeholders for empty names are left out.
- Unreadable annotations, and an absent patch value outside release: the code would dereference nil; the model has an error without effect.
- JSON encoding, host bits in CIDR texts and the path conversion function (a parameter) are not modelled.
- Selector matching: the applicable rules and the matching clusters are parameters.
- API objects (clusters, ClusterConfigs, patches outside the sort) are values, since the code works on deep copies; aliasing between them is not captured. The allocator, its shared holder, the platform cluster and the controller are classes.
- SortTheorems.SortWorksIffNoWallBetween: for more than 20 patches one direction only, as the other is false there; which of the longer lists happen to be merged into order depends on the places that the searches look at.
- SortInPlace.SortArray: the passes and the doubling of the block size are recursive, and the exchange of two ranges is one simultaneous assignment, not the library's series of swaps.
- The conversion of the subnet size to 8 bits, as sizes are 0 to 32 by the CRD schema.
- The webhook for references between resources, the time at which a refresh is due, command line, set-up, CRD and deep-copy code: plumbing.
