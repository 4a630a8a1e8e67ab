# Dibba: verified models of scheduling, balancing, image unpacking and the small services

This project models the decision logic of Dibba, a container orchestration layer, and proves what it guarantees.
`dafny verify dfyconfig.toml` checks everything.

## What is modelled

**Placement schedulers** (`Workload`, `StableSort`, `Greedy`, `NodeCount`, `Schedulers`, `PlacementRuns`, `Makespan`,
`Guarantees`, `LargestFirstLimits`, `QueueOrder`, `TotalOrderLimits`). Three programs expand a dictionary of services
into replicas `(name, k)`, sort them stably in descending order, and put each on the feasible node whose resulting
cpu+memory use is least, lowest index on ties. `LargestFirst` (`modules/server/servertest1.py`) sorts by replica size
and gives up when something does not fit; `HeaviestFirst` (`server/nodes/distribute_nodes_services.py`) sorts by the
service's total demand and gives up; `Skipping` (`server/nodes/cluster_worker_distribution.py`) uses the same order and
skips. Inputs arrive as raw dictionaries whose fields may be missing, not numbers or negative. `PlacementRuns` tells the
three programs a second time, as runs over those raw dictionaries, and proves that they return what the runs end in.
Main results: capacity safety and exact coverage; what a `None` means; Graham's 4/3 - 1/(3n) bound for `LargestFirst`
against every assignment of the same replicas, reached for every n, and its optimality while replicas are large; the
2 - 1/n bound for `HeaviestFirst`, reached for every n >= 2, and when it meets the sharper bound (whenever its queue
comes out in size order, which is decided exactly on the dictionary, and for all dictionaries exactly on one worker);
`HeaviestFirst` as a refinement of `Skipping`; maximality and prefix shape of what `Skipping` places; and the volume
bound on the number of default nodes.

**Balancers** (`Counting`, `Balancing`, `BalanceRuns`, `RoundRobin`, `Balancers`). `distribute_pods` and
`distribute_fruits` reserve `total % n` placeholder slots, add each item to the first least-filled position, then delete
the placeholders. `BalanceRuns` tells this a second time as a run, and proves exactly when an uneven start is evened
out. On empty nodes it is a round robin, with exact totals; on an existing distribution every position that receives
something ends at most one above any other. `Basket` objects stand for the Python dictionaries, so that copying and
updating in place are visible. `Quot` and `Rem` are integer division by repeated subtraction
(`Counting.QuotRemMeaning`).

**Image unpack** (`ChainIds`, `Snapshots`, `Unpack`, `UnpackRaces`, `UnpackReplies`, `UnpackContents`,
`UnpackAgreement`). `grpc_unpack` over a store of committed and active snapshots, once as a single call on an object and
once as a protocol in which any number of calls are interleaved RPC by RPC, together with other clients, and every RPC
may fail before or after it took effect. `UnpackReplies` says for each RPC what every reply leads to, and for whole
histories which runs fail. Images are arbitrary: what depends on their layers being what their configs claim is stated
with that condition. Chain identifiers follow "Layer ChainID" in the image configuration document of the OCI Image
Format Specification, with the digest as a free constructor.

**Pods** (`PodLifecycle`, `PodHistories`, `PodManagement`). `create_pod`, `add_containers`, `delete_container`,
`delete_pod` and the snapshotter cache, on a machine that holds stores, containers, tasks and CNI attachments.

**Smaller services.** Greedy coin change (`Coins`), failure counters in a hash that expires as a whole (`HealthTrack`),
the free addresses of a CIDR block (`FreeIps`), and two parsers of memory quantities (`MemoryQuantities`, and form by
form `QuantityForms`).

## Where the code differs from what it says

- `server/nodes/cluster_worker_distribution.py` documents `None` when distribution is impossible; the code skips what
  does not fit and returns the rest. The model follows the code;
  `Schedulers.SkippingCanDrop` is such an input.
- The same file and `distribute_nodes_services.py` sort by a service's total demand, which does not put the largest
  replica first. `TotalOrderLimits.HeaviestFirstReachesTwiceLessOne` shows what that costs for every number of workers
  above one, and `QueueOrder.SizeOrderedExactlyWhen` when it costs nothing.
- `distribute_nodes_services.py` is declared to return `None` without workers, but first computes the number of nodes
  needed, which raises on an entry that is not numeric.
- `grpc_unpack` hands the config's diff id to Apply but never compares it; `Unpack.MislabelledLayerIsKept` is an input,
  and `Unpack.SoundIffLayersMatch` and `UnpackContents.SoundExactlyWhenFaithful` give the exact condition under which
  the store stays sound, for one call and for whole histories.
- `prepare_rw_snapshot` may move the cache to another snapshotter than the one deletes use;
  `PodLifecycle.ChoiceAgreesExactlyWhen` says exactly when it does not, and `PodLifecycle.CacheCanMove` is a machine on
  which it does. It never does in the pod operations.
- `delete_pod` skips the CNI DEL when the network name is empty; `PodManagement.PodManager.PodLife` has the exact
  condition for the attachments to be as before, and `PodHistories.HistoryConserves` that of any interleaving of pods.
- The two memory parsers agree on a quantity whose unit directly follows the digits or whose digits are all zero, and
  both raise on a string with more than one dot or a dot and no digit. They disagree on everything else: "64 Mi" loses
  its unit in the scanner, and "64MiB", "1.5Gi", "-5", "abc" and the empty string are numbers to the scanner and errors
  to the grammar.
- `track_consecutive_failures` ignores its `time` argument and always uses 60 seconds.

## Model

| member | source | states |
|---|---|---|
| Workload.CheckNodes | server/nodes/distribute_nodes_services.py:46-54 | the node check passes exactly when every node is a dictionary with non-negative numeric cpu and memory |
| Workload.CheckServices | server/nodes/distribute_nodes_services.py:56-66 | the service check passes exactly when every service has non-negative cpu and memory and a positive instance count |
| Workload.ExpandCounts | modules/server/servertest1.py:44-48 | expansion lists each replica number below the instance count of each service once, and nothing else |
| StableSort.SortIsTheStableOne | modules/server/servertest1.py:51 | a list is the sort's result if and only if it is descending by key and keeps equal keys in their original order |
| Greedy.FindBestNode | modules/server/servertest1.py:56-69 | the inner loop finds the feasible node with least resulting cpu+memory use, lowest index on ties, -1 when there is none |
| Greedy.ChoiceIsUnique | modules/server/servertest1.py:64-69 | that rule determines the node completely |
| Schedulers.DistributeMicroservices | modules/server/servertest1.py:18-77 | the whole program on arbitrary raw input, including its four ways of returning None |
| Schedulers.DistributeClusterNodes | server/nodes/distribute_nodes_services.py:38-116 | the strict program, including the AttributeError when it was built without services and the KeyError or TypeError of counting the nodes needed for a malformed entry without workers |
| Schedulers.DistributeClusterNodesSkipping | server/nodes/cluster_worker_distribution.py:10-106 | the skipping program, which also accepts no nodes and no services |
| PlacementRuns.WellFormedExactlyWhen | modules/server/servertest1.py:24-39 | validation passes exactly when, field by field, every cpu and memory is a number of at least 0 and every instance count one above 0 |
| PlacementRuns.QueuesAre | modules/server/servertest1.py:44-51 | a list is the first program's queue if and only if it holds replica k of a service once for each k below its instances, descending by cpu+memory, ties in dictionary order and then by number; the queue of the other two is that by total demand |
| PlacementRuns.TotalIsLoad | server/nodes/distribute_nodes_services.py:85-87 | the total-demand key is the summed cpu and memory of all replicas of the service |
| PlacementRuns.LargestFirstIsTheRun | modules/server/servertest1.py:41-77 | the first program returns the end of the run that puts one replica after the other on the feasible worker with least resulting cpu+memory, first on ties, and None when that gets stuck or the input is empty or malformed |
| PlacementRuns.HeaviestFirstIsTheRun | server/nodes/distribute_nodes_services.py:38-116 | the strict program does so over the total-demand queue, after its own ways of failing |
| PlacementRuns.SkippingIsTheRun | server/nodes/cluster_worker_distribution.py:66-106 | the skipping program returns the end of the run that passes over what fits nowhere |
| PlacementRuns.QueuesExist | modules/server/servertest1.py:44-51 | there is such a queue of each kind for every well-formed input |
| PlacementRuns.RunExists | modules/server/servertest1.py:53-77 | and over any queue such a run |
| Schedulers.LargestFirstIsSafeAndExact | modules/server/servertest1.py:53-77 | a returned distribution overfills no node in cpu or memory and holds each demanded replica exactly once and nothing else |
| Schedulers.HeaviestFirstIsSafeAndExact | server/nodes/distribute_nodes_services.py:68-116 | the same for the strict scheduler |
| Schedulers.LargestFirstFailure | modules/server/servertest1.py:71-75 | on valid non-empty input None is returned if and only if at some turn the replica whose turn it is fits on no node |
| Schedulers.HeaviestFirstFailure | server/nodes/distribute_nodes_services.py:105-114 | the same for the strict scheduler |
| Schedulers.HeaviestFirstRefinesSkipping | server/nodes/distribute_nodes_services.py:89-116 | the strict scheduler returns a distribution exactly when the skipping one drops nothing, and then the same one |
| Schedulers.SkippingIsSafeAndMaximal | server/nodes/cluster_worker_distribution.py:66-106 | no node is overfilled, and every skipped replica still fits on no node at the end |
| Schedulers.SkippingCanDrop | server/nodes/cluster_worker_distribution.py:99-106 | an input on which a replica is dropped and a distribution still returned |
| Schedulers.SkippingAccountsForAll | server/nodes/cluster_worker_distribution.py:78-106 | every demanded replica is placed or skipped, once, and nothing else is |
| Schedulers.SkippingPlacesPrefixes | server/nodes/cluster_worker_distribution.py:66-106 | of every service exactly the replicas 0, ..., k-1 are placed, for some k |
| Makespan.LargestFirstStep | modules/server/servertest1.py:53-72 | one greedy step with the largest remaining replica keeps the chosen node within 4/3 - 1/(3n) of the limit any assignment needs |
| Guarantees.LargestFirstApproximation | modules/server/servertest1.py:44-77 | when no capacity binds, 3n times the largest load is at most 4n-1 times that of any assignment of the same replicas to n nodes |
| LargestFirstLimits.LargestFirstReachesBound | modules/server/servertest1.py:44-77 | on every number n of workers an input on which that factor is reached exactly: largest load 4n-1 where 3n is possible |
| Guarantees.LargestFirstIsOptimalForLarge | modules/server/servertest1.py:44-77 | when every replica exceeds a third of the largest load of some assignment, the largest load is at most that of the assignment |
| Guarantees.HeaviestFirstApproximation | server/nodes/distribute_nodes_services.py:80-116 | when no capacity binds, loads differ by at most the largest replica, and n times the largest load is at most the total plus n-1 times the largest replica |
| Guarantees.HeaviestFirstAgainstAny | server/nodes/distribute_nodes_services.py:80-116 | hence n times its largest load is at most 2n-1 times that of any assignment |
| QueueOrder.SizeOrderedExactlyWhen | server/nodes/distribute_nodes_services.py:80-87 | the total-demand queue is in size order if and only if no service is ahead, by total demand or by dictionary order on a tie, of one with larger replicas |
| QueueOrder.HeaviestFirstMeetsLargestFirstBound | server/nodes/distribute_nodes_services.py:80-116 | on every dictionary that meets this condition the strict scheduler meets the largest-first bound against any assignment |
| QueueOrder.LargerTotalsAreEnough | server/nodes/distribute_nodes_services.py:85-87 | the condition holds whenever larger replicas mean a larger total demand |
| TotalOrderLimits.HeaviestFirstReachesTwiceLessOne | server/nodes/distribute_nodes_services.py:80-116 | for every n >= 2 an input on n workers with largest load 2n-1 where n is possible: the factor 2 - 1/n is reached and the largest-first bound broken |
| TotalOrderLimits.BoundForAllDictionariesExactlyWhen | server/nodes/distribute_nodes_services.py:80-116 | the scheduler meets the largest-first bound on all ample dictionaries if and only if there is one worker |
| NodeCount.CalculateNodesNeeded | server/nodes/distribute_nodes_services.py:12-36 | the returned number, and every way the call fails |
| NodeCount.NodesForIsLeast | server/nodes/distribute_nodes_services.py:28-34 | the rounding gives the least k with total cpu at most 20k and total memory at most 24k |
| NodeCount.NodesForAny | server/nodes/distribute_nodes_services.py:28-34 | on totals of any sign: that least number, but one more when neither total is positive and neither quotient whole, because the code truncates towards zero |
| NodeCount.NeededIsLowerBound | server/nodes/distribute_nodes_services.py:12-36 | any capacity-respecting placement of all replicas on k default nodes has k at least the computed number |
| Guarantees.TooFewNodes | server/nodes/distribute_nodes_services.py:38-116 | on fewer default nodes than that the strict scheduler returns None |
| Balancers.FindLeast | server/nodes/initial_load_distribution.py:44-50 | the search returns the first position with the least total |
| Balancers.Pour | modules/server/servertest.py:52-65 | the loops add every item of every kind, in dictionary order, to the first least-filled position at that moment |
| Balancers.DistributePods | server/nodes/initial_load_distribution.py:16-58 | None exactly on invalid input; otherwise fresh dictionaries with the balanced contents |
| Balancers.DistributeFruits | modules/server/servertest.py:17-72 | None exactly on invalid input or a length mismatch; otherwise fresh dictionaries with the balanced contents, and the given ones unchanged |
| Balancing.BalancedConserves | modules/server/servertest.py:37-72 | every kind but the placeholder gains exactly its quantity in all and loses nothing anywhere; a key named like the placeholder is gone |
| Balancing.ItemsCount | modules/server/servertest.py:52-55 | each kind is added as often as its quantity says |
| Balancing.ReceiversEndLevel | modules/server/servertest.py:48-72 | every basket that receives something ends with at most one more than any other, however uneven the start was |
| BalanceRuns.ItemsAre | modules/server/servertest.py:52-55 | a list is the one being poured if and only if it has each kind as often as its quantity says and kinds in dictionary order |
| BalanceRuns.BalancedIsTheRun | modules/server/servertest.py:37-72 | the result is the end of the run that starts with one placeholder in each of the first (incoming + existing) mod n baskets and gives each item to the first least-filled one, without the placeholders |
| BalanceRuns.RunExists | modules/server/servertest.py:48-65 | there is such a run from every start |
| BalanceRuns.EvensOutExactlyWhen | modules/server/servertest.py:37-72 | with r = total mod n, Q and R the quotient and remainder of (total + r) by n: every final total, placeholder included, is Q or Q+1 if and only if no start with its placeholder is above Q+1 and at most R are at Q+1 |
| BalanceRuns.HighStartsStay | modules/server/servertest.py:37-72 | an input on which no start is above Q+1 and yet one basket ends below Q |
| RoundRobin.PodsLandInTurn | server/nodes/initial_load_distribution.py:34-52 | the j-th pod lands on node (r+j) mod n, where r is total mod n |
| RoundRobin.PodTotals | server/nodes/initial_load_distribution.py:27-58 | node i ends with total/n pods, plus one if (i-r) mod n is below r |
| RoundRobin.PodTotalsBalance | server/nodes/initial_load_distribution.py:27-58 | exactly r nodes end with total/n + 1 pods and exactly n-r with total/n |
| RoundRobin.ApplicationsSpread | server/nodes/initial_load_distribution.py:40-52 | the pods of each single application differ by at most one between any two nodes |
| ChainIds.ComputeChainId | utils/containerd/containerd_interface.py:162-172 | the loop obeys the recurrence of the specification; an empty list is an error |
| ChainIds.LayersOfChain | utils/containerd/containerd_interface.py:162-172 | an identifier determines its layers, and its parent is the identifier of all but the last |
| ChainIds.ChainOfLayers | utils/containerd/containerd_interface.py:162-172 | every identifier is that of its layers |
| ChainIds.ChainIsInjective | utils/containerd/containerd_interface.py:162-172 | different layer lists have different identifiers |
| Unpack.Snapshotter.GrpcUnpack | utils/containerd/containerd_interface.py:430-481 | what one call commits, prepares, returns and leaves active, for any choice of layers at which Apply or Commit fails |
| Unpack.Snapshotter.UnpackLayer | utils/containerd/containerd_interface.py:444-477 | Prepare, Apply and Commit of one layer; a failed Commit removes the key, a failed Apply leaves it |
| Unpack.LayersAre | utils/containerd/containerd_interface.py:437-477 | after m layers each of their chain ids is committed: unchanged if it was, else on the identifier before it and with that one's layers and its own |
| Unpack.OnlyLayers | utils/containerd/containerd_interface.py:437-477 | nothing else was committed |
| Unpack.StopIsFirst | utils/containerd/containerd_interface.py:439-477 | a call stops at the first layer that has no snapshot and whose Apply or Commit fails |
| Unpack.MissingInOrder | utils/containerd/containerd_interface.py:439-442 | it prepares exactly the layers without a snapshot, bottom up |
| Unpack.SecondCallChangesNothing | utils/containerd/containerd_interface.py:440-442 | after a success a second call prepares nothing, changes nothing and cannot fail |
| Unpack.RetryResumes | utils/containerd/containerd_interface.py:437-477 | after a failure at layer i a retry prepares exactly the missing layers from i on and completes the same chain |
| Unpack.SoundIffLayersMatch | utils/containerd/containerd_interface.py:455-471 | a completed call keeps a sound store sound if and only if each newly unpacked layer is what the config says |
| Unpack.MislabelledLayerIsKept | utils/containerd/containerd_interface.py:455-471 | an input on which it does not |
| UnpackAgreement.LeftAloneIsTheCall | utils/containerd/containerd_interface.py:430-481 | an interleaved run that is left alone from its beginning until it has finished leaves the store, the active snapshots and the parent that the single call leaves |
| UnpackAgreement.TheCallIsPossible | utils/containerd/containerd_interface.py:430-481 | and it can do so from every reachable state |
| UnpackRaces.NextKeepsInv | utils/containerd/containerd_interface.py:430-481 | whatever the images, every RPC of every run, and every step of other clients, keeps the invariant and every committed snapshot |
| UnpackRaces.HistoryIsSafe | utils/containerd/containerd_interface.py:430-481 | in every history nothing committed is lost or changed |
| UnpackRaces.FinishedRunsHaveTheirChain | utils/containerd/containerd_interface.py:472-481 | a finished run, whichever Commit races it lost, leaves every prefix of its chain committed and returns the top |
| UnpackRaces.EndedRunsLeaveNoKeys | utils/containerd/containerd_interface.py:463-477 | when no Apply fails, no Prepare reply is lost and every Remove works, an ended call leaves none of its keys active |
| UnpackRaces.CallsAreBounded | utils/containerd/containerd_interface.py:437-479 | in any history a run makes at most five RPCs a layer |
| UnpackRaces.UnfinishedRunsCanMove | utils/containerd/containerd_interface.py:437-479 | in every reachable state a run that has neither finished nor raised has an RPC of its own it can make |
| UnpackRaces.LeftAloneItFinishes | utils/containerd/containerd_interface.py:437-481 | from every reachable state a run that has not failed finishes when it runs on without faults, whatever others left behind |
| UnpackReplies.Beginnings | utils/containerd/containerd_interface.py:430-437 | a run raises at once when the lengths differ, has finished when there are no layers, and else begins with the Stat of the first |
| UnpackReplies.StatReplies | utils/containerd/containerd_interface.py:410-418 | a known chain id moves the run on, an unknown one to Prepare, any other error raises |
| UnpackReplies.PrepareReplies | utils/containerd/containerd_interface.py:444-453 | the key becomes active on the parent and Apply is next; any error raises, with the key left behind if the RPC took effect |
| UnpackReplies.ApplyReplies | utils/containerd/containerd_interface.py:455-462 | the key gets the layer on top of its parent's and Commit is next; any error raises |
| UnpackReplies.CommitReplies | utils/containerd/containerd_interface.py:463-477 | the key becomes the snapshot; a chain id that is there already means clean up and go on, any error clean up and raise |
| UnpackReplies.RemoveReplies | utils/containerd/containerd_interface.py:463-477 | the clean-up takes the key away if it works, and the run goes on or raises as it was about to |
| UnpackReplies.AnyoneMayMove | utils/containerd/containerd_interface.py:430-481 | every call can make its next RPC, with any fault and any unused key, in every reachable state |
| UnpackReplies.RunsFailExactlyWhen | utils/containerd/containerd_interface.py:430-481 | in every history a run has raised or is about to if and only if its lengths differ or a Stat, Prepare, Apply or Commit of its own met an error |
| UnpackReplies.TroubledRunsNeverFinish | utils/containerd/containerd_interface.py:430-481 | so a run that met such an error never finishes |
| UnpackContents.SoundExactlyWhenFaithful | utils/containerd/containerd_interface.py:455-471 | over whole histories the snapshot named by a chain holds exactly its layers on its parent, if and only if no Commit of a layer other than the one the config names took effect |
| UnpackContents.ConsistentImagesAreFaithful | utils/containerd/containerd_interface.py:455-471 | which is so whenever every image is what its config claims |
| UnpackContents.FinishedRunsHaveTheirLayers | utils/containerd/containerd_interface.py:472-481 | then a finished run's chain holds exactly the layers of the config, prefix by prefix |
| PodLifecycle.FirstCandidate | utils/containerd/containerd_interface.py:368-375 | the first candidate snapshotter is always the effective default |
| PodLifecycle.CandidatesAre | utils/containerd/containerd_interface.py:368-375 | the whole list: the configured snapshotter, then the five known ones without it, all plain and then all qualified |
| PodLifecycle.ChosenIs | utils/containerd/containerd_interface.py:378-406 | the choice is the cached snapshotter if it has the parent, else the first candidate that has it |
| PodLifecycle.ChoiceAgreesExactlyWhen | utils/containerd/containerd_interface.py:378-406 | the cache stays unset or the effective default exactly when that default accepts the parent or no candidate does |
| PodLifecycle.CacheCanMove | utils/containerd/containerd_interface.py:378-406 | a machine on which it moves to another snapshotter |
| PodManagement.PodManager.PrepareRwSnapshot | utils/containerd/containerd_interface.py:378-406 | the cached snapshotter is tried first, then the candidates in order; the one that worked is cached and holds the new key |
| PodManagement.PodManager.EnsureUnpacked | utils/containerd/containerd_interface.py:912-981 | it succeeds exactly when the image is known, its lengths match and the effective default is there if there are layers, and otherwise returns that error and leaves the stores alone; on success the default holds the whole chain, and the returned parent is its top |
| PodManagement.PodManager.ChainIdForImage | utils/containerd/containerd_interface.py:350-357 | the chain id of an image, or an error when it has no layers |
| PodManagement.PodManager.Launch | utils/containerd/containerd_interface.py:988-1015 | it succeeds exactly when the image can be unpacked, has layers, and the id is not empty and in neither the containers nor the tasks, with that error otherwise; it then adds exactly one container, task and snapshot key, on the effective default, which every attempt leaves agreed |
| PodLifecycle.LaunchedExactly | utils/containerd/containerd_interface.py:988-1015 | field by field: the new records of container and task, the fresh key on top of the image's chain, the chain committed, and nothing else |
| PodManagement.PodManager.CreatePod | utils/containerd/containerd_interface.py:984-1031 | it succeeds exactly when the pause container can be launched; it is then launched and, if ADD works, one attachment made |
| PodManagement.PodManager.AddContainer | utils/containerd/containerd_interface.py:1034-1074 | a launch under the id made of pod and container name, with the same exact condition |
| PodManagement.PodManager.AddContainers | utils/containerd/containerd_interface.py:1077-1093 | it succeeds exactly when every spec could be launched at the start and the ids differ; then every spec got its own container and exactly those were added to whatever was live |
| PodManagement.PodManager.StopAndDeleteTask | utils/containerd/containerd_interface.py:806-836 | whether or not the process survives SIGTERM, its task and container record are gone and nothing else is |
| PodManagement.PodManager.SnapRemoveActive | utils/containerd/containerd_interface.py:421-427 | removes exactly the key, and nothing when it or the snapshotter is unknown |
| PodManagement.PodManager.DeleteContainer | utils/containerd/containerd_interface.py:1100-1121 | takes away exactly the container, task and snapshot key of the handle |
| PodManagement.PodManager.DeletePod | utils/containerd/containerd_interface.py:1124-1180 | takes away exactly the apps, the attachment and the pause container |
| PodLifecycle.DeletedIs | utils/containerd/containerd_interface.py:1124-1180 | field by field: the records and keys of the apps and the pause container and one attachment are gone, and nothing else |
| PodManagement.PodManager.PodLife | utils/containerd/containerd_interface.py:1221-1286 | it succeeds exactly when the pause container and all specs could be launched at the start; creating a pod, adding containers and deleting it with them then restores containers, tasks and active snapshots, adds only committed layers, and restores attachments under an exact condition |
| PodLifecycle.DeleteRestores | utils/containerd/containerd_interface.py:1124-1180 | deleting a pod with all its apps restores the machine from before them |
| PodHistories.HistoryHoldsLive | utils/containerd/containerd_interface.py:984-1180 | however operations on any pods are interleaved, the machine holds exactly what is still live |
| PodHistories.HistoryConserves | utils/containerd/containerd_interface.py:984-1180 | once all interleaved pods and containers are deleted, containers, tasks and active snapshots are as at the start, and the attachments are if and only if each pod's own was not there before, or, with an empty network name, was there or never made |
| Coins.GreedyCoinChange | modules/server/test.py:1-10 | sorts the caller's list in place, descending, and returns the greedy change |
| Coins.GreedyPays | modules/server/test.py:5-10 | the change never overshoots and leaves less than every coin |
| Coins.GreedyIs | modules/server/test.py:5-10 | for every amount, negative ones too, a list is the change if and only if each coin in it is the largest that still fits and at the end none fits |
| Coins.SystemIsSorted | modules/server/test.py:14 | the list of the source sorts to 20, 10, 5, 2, 1 |
| Coins.SystemIsOptimal | modules/server/test.py:1-14 | for 1, 2, 5, 10, 20 and every amount no payment uses fewer coins |
| Coins.ChainIsOptimal | modules/server/test.py:1-10 | the same for any coins in which each is a multiple of the next smaller one, down to 1 |
| Coins.OptimalExactlyWhenNoGain | modules/server/test.py:1-10 | with a coin of 1, greedy is optimal for all amounts if and only if paying any one coin first never helps |
| Coins.NoGainIsFinite | modules/server/test.py:1-10 | it never helps if and only if it does not help below the sum of the two largest coins |
| Coins.FewestCoinsExactlyWhen | modules/server/test.py:1-10 | for any list of coins, every amount is paid and with the fewest coins if and only if 1 is among them and no first coin helps below that sum |
| Coins.SomeSystemIsNotOptimal | modules/server/test.py:1-10 | a system and amount for which greedy is not optimal |
| HealthTrack.HcTrack.TrackConsecutiveFailures | utils/redis/hc_track.py:18-28 | the effect of one report on the hash of its cluster, and none on other clusters |
| HealthTrack.TrackIs | utils/redis/hc_track.py:18-28 | a healthy report sets the field to 0, an unhealthy one increments what a surviving hash held, any other status changes no field; the other fields survive with the hash, which expires 60 units after the report |
| HealthTrack.CounterMeansFailuresSince | utils/redis/hc_track.py:18-28 | the live counter of a URL is the number of its unhealthy reports since the latest of its last healthy report and the last 60 s silence of the whole cluster |
| HealthTrack.CountsFromSomewhere | utils/redis/hc_track.py:18-28 | there is always exactly one such position to count from |
| FreeIps.SmallestFreeOnes | network/ip_address_interface.py:9-30 | for a count of at least 0 the result is the ascending list of the smallest free host addresses, as many as asked or all there are |
| FreeIps.FreeListsTheFree | network/ip_address_interface.py:24-27 | without a count it is the ascending list of exactly the free host addresses |
| FreeIps.RefusedExactlyWhen | network/ip_address_interface.py:16-20 | a block is refused exactly when its prefix is above 32, it has host bits set or it leaves 32 bits |
| FreeIps.NegativeCountDrops | network/ip_address_interface.py:26-30 | a negative count drops that many from the end |
| FreeIps.HandOutIsThePrefix | network/ip_address_interface.py:9-30 | allocating and recording again and again hands out the initial free list in order: no repeats, and exactly exhausted |
| FreeIps.HostCount | network/ip_address_interface.py:18-24 | the hosts of a block: all but the first and last address (section 3.1 of RFC 4632), both of a /31 (section 2.1 of RFC 3021), the one of a /32 |
| MemoryQuantities.ParseScanner | server/api_models.py:5-33 | the character loop separates digits and dots from everything else and scales exactly |
| MemoryQuantities.GrammarTakes | utils/containerd/adapters.py:6-8 | the grammar accepts exactly digits, optional white space and an optional unit, with white space around |
| MemoryQuantities.ScannerRefuses | server/api_models.py:19-33 | the scanner raises exactly on a dot without a digit or more than one dot |
| MemoryQuantities.ParsersAgreeExactlyWhen | utils/containerd/adapters.py:4-18 | on every string both return the same number or both raise, if and only if it is a quantity with no white space before the unit or only zero digits, or has bad dots |
| MemoryQuantities.ScannerOnlyUnits | server/api_models.py:8-14 | digits followed by a unit only the scanner knows are a scaled number to it and an error to the grammar |
| MemoryQuantities.MebibytesAreScannerOnly | server/api_models.py:8-14 | "64MiB" and its like: mebibytes to the scanner, an error to the grammar |
| MemoryQuantities.BothParsersOnQuantity | utils/containerd/adapters.py:6-18 | digits followed directly by a unit, in any case, are number times multiplier to both parsers |
| MemoryQuantities.PrintThenParse | server/api_models.py:12-33 | printing a number with a unit and parsing it gives number times multiplier |
| QuantityForms.UnitsMean | server/api_models.py:8-14 | a printed number with each unit, in any case, is that multiple to the parsers that know the unit |
| QuantityForms.UnknownUnitIsOne | server/api_models.py:24-33 | an unknown unit counts as one to the scanner and is refused by the grammar |
| QuantityForms.NoNumberIsZero | server/api_models.py:24-33 | a string without digits and dots is 0 to the scanner |
| QuantityForms.SignedIs | server/api_models.py:19-22 | a sign before the digits is read |
| QuantityForms.UnderscoreIs | server/api_models.py:19-22 | an underscore between digits is read over |
| QuantityForms.DecimalIs | server/api_models.py:24-33 | "1.5Gi", ".5M", "2.": the scanner returns the exact decimal times the unit, cut off; the grammar raises |
| QuantityForms.LettersStandAnywhere | server/api_models.py:24-33 | to the scanner a letter and the digit or dot beside it may change places |
| QuantityForms.PaddingIsIgnored | utils/containerd/adapters.py:10-18 | white space around the string changes neither parser's result |
| MemoryQuantities.SpacedQuantity | server/api_models.py:24-33 | "64 Mi" and its like: mebibytes to the grammar, bytes to the scanner |

## Left out

- FastAPI endpoints, JWT, Celery, Kafka, Docker, AWS and etcd clients, Redis node maps, logging and printing: plumbing over libraries.
- Machine-written protobuf and gRPC code, channels, metadata, timeouts and sleeps: each RPC is one atomic step.
- Floating point: resources are integers, node counts use exact rationals, and decimal memory quantities are truncated exactly.
- Schedulers.DistributeMicroservices: the type check of the two containers themselves (a list, a dictionary) is a matter of types here; their entries are checked.
- Makespan.LargestFirstStep: nothing is claimed when capacities bind; the bounds are for nodes that could each hold the total demand.
- Balancers.DistributePods: quantities are integers or not numbers; Python's booleans are not distinguished from integers.
- ChainIds.ChainIsInjective: the digest is a free constructor, so no claim is made about the strength of SHA-256.
- PodManagement.PodManager.EnsureUnpacked: images resolve stably and their blobs are present; reference candidates, the platform choice and the CRI pull for missing blobs are not modelled.
- PodManagement.PodManager.Launch: the OCI runtime spec and the mounts are not modelled, and after a failed launch only the agreement of the cache and the safety of committed layers are claimed, because the code rolls nothing back.
- QueueOrder.HeaviestFirstMeetsLargestFirstBound: out of size order the bound may hold by accident, as it always does on one worker; whether it does then depends on the best assignment, so per dictionary only the queue order is characterised exactly.
- PodHistories.HistoryConserves: the history is of successful operations, one after the other; failed ones leave what Launch says.
- PodManagement.PodManager.StopAndDeleteTask: SIGKILL always ends the process, and Remove and Delete fail only when there is nothing to remove or the process runs.
- PodManagement.PodManager.CreatePod: CNI ADD and DEL insert and remove one attachment; configuration discovery and plugin processes are not modelled.
- UnpackRaces.HistoryIsSafe: keys end in uuids that are never reused, and other clients neither commit, remove nor change committed snapshots.
- HealthTrack.HcTrack.TrackConsecutiveFailures: time is given in whole units by the caller, a hash is gone at its deadline, and `lb_update`, which keeps a key per URL, would add only an easier counter.
- Coins.GreedyCoinChange: coins are positive; with a zero or negative coin the loop of the source need not end.
- FreeIps.SmallestFreeOnes: addresses are numbers; parsing and printing dotted quads and IPv6 blocks are not modelled.
- MemoryQuantities.ParseScanner: ASCII only, without Python's limit on the length of integer literals; an argument that already is an integer is returned as it is.
- `_parse_bytes`, `_mcores_to_quota_period`, `OciSpecBuilder` and the resource dictionaries: record shuffling and easy arithmetic.
