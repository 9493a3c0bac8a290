# Itinerary planner: a verified model

This project models the planning service in Dafny and proves what its algorithms promise. It covers the
search pipeline in `PPView/Route`, which groups places into days, orders each day, joins the days and lays
out the route, and the infrastructure around it: the hot swap of shared data, the thread pool's task queue,
the request text between services, and the calendar. `dafny verify dfyconfig.toml` checks everything.

| file | what it models |
|---|---|
| `Prelude.dfy` | options, sequences without repetitions |
| `PathHeap.dfy` | `SPathHeap`: the bounded list of best paths that drops equal hashes |
| `DayPlan.dfy`, `ClashTheory.dfy`, `ClashLimits.dfy`, `KeptMeaning.dfy` | `DFS::CalClash`: the greedy check of an order against opening hours, and exactly when it is right |
| `DaySearch.dfy`, `DayOptimal.dfy`, `DayMeaning.dfy` | `DFS`: branch and bound over the orders of one day, and what each path it returns says |
| `JoinDays.dfy`, `RouteMeaning.dfy` | `DFSWorker::JoinDayPath`: all combinations of day paths, and what each route visits |
| `MergeHeaps.dfy`, `MergeTheory.dfy` | `ThreadMemPool`, `DFSWorker::doWork`: one heap per thread and point set, and what merging them keeps |
| `BestRoute.dfy`, `KeepableRoute.dfy` | the whole search: days, joining, threads and merging composed |
| `PathOwner.dfy`, `PathMerge.dfy` | who holds each path: `SPathAlloc`, `ThreadMemPool`, and `DFSearch::MergeDFS` |
| `HierCluster.dfy`, `ClusterTheory.dfy`, `ClusterSearch.dfy`, `ClusterOnce.dfy` | `HierarchicalClustering`, and the filter-and-pad step of `ClusterOrganizer::Run` |
| `DayGroups.dfy`, `DayMoves.dfy`, `MoveMeaning.dfy`, `DayKmeans.dfy` | `MyKmeans`: places to days, then out of overfull days |
| `DayPermutation.dfy` | `RouteSearch::Perm` |
| `HotUpdate.dfy`, `HotReload.dfy` | `MJHotUpdate`: replacing shared data under running threads, and what `reloadData` may return |
| `TaskList.dfy`, `WorkerPool.dfy` | `linked_list_t`, `wait_list_t`, `MyThreadPool` |
| `ShowList.dfy`, `ShowLoop.dfy`, `ShowMeaning.dfy` | `ListResortViewShopRestTour`: round robin with quotas, and exactly when its loop ends |
| `ReferMatching.dfy`, `MatchTheory.dfy`, `MatchUnique.dfy` | `SetReferOriginViews`: matching requests with old views, exactly when the matching is stable, and when it is the only one |
| `UrlCode.dfy`, `QueryText.dfy`, `HttpQuery.dfy`, `RequestTheory.dfy`, `RequestForms.dfy` | the request a client prints and the server parses, and what it makes of others |
| `Calendar.dfy`, `DateText.dfy`, `DateList.dfy` | `MyTime`, and `LightPlan::GetReqDateList` |

## How it is modelled

- Objects that the source changes in place are classes, and their methods are proved against functions of
  the old state. What the source promises is then proved about those functions for all inputs and all runs.
- Concurrency (`HotUpdate.dfy`, `WorkerPool.dfy`) is a state machine whose steps are the critical sections
  and the single reads and writes between them. Theorems quantify over every interleaving. Reads and
  writes are sequentially consistent, although the source reads `_state` without a lock.
- Scores are integers, as `DFS::GetScore` returns them. The tolerance of 1e-6 in `SPathCmp` and `CanPush`
  is then exact comparison.
- A heap is its elements from best to worst, so its top is the last one. Heaps hold at least one path.
- Leg distances and times are not negative, and no search times out.
- Path hashes are an arbitrary function of the path, so different paths may share one. Theorems about what
  the heaps keep ask that no other path shares its hash with one of the K best (`Clear`). `OrderExact` shows
  that just this is needed.
- `TrafRoute::DoRoute`, the traffic tables, `reloadData`, the answers of the database, cluster centres and
  the distances between places are arbitrary functions or inputs.
- 32-bit products of `MyTime` wrap round explicitly; in C++ they are undefined once they overflow.
  `gmtime` and `strftime` are taken to invert the day count.

## What does not hold without a condition

Each of these is stated with the exact condition, or with inputs that show the condition is needed.

- `CalClash` can report a clash for an order that can be kept. It is right for every order, leg table, start
  and stop over given places and any views with one window exactly when no window hides a later one and the
  restaurants' meals fit together (`ClashRightExactly`). For views the first half is exact
  (`ViewsRightExactly`), and one arrival for each pair of windows decides it (`HidesCheck`). Any hidden window
  gives a day of that place alone that can be kept and is refused (`HiddenClash`). Any two restaurants whose meals
  do not fit give one of the two and a view that is open at one moment (`MealsClash`).
- `SPathHeap` keeps the K best paths for every order of offers exactly when none of them shares its hash with
  another path (`OrderExact`). Otherwise the other path, offered first, shuts the better one out (`ClashFirst`).
- `SetReferOriginViews` packs a trip and a stay into `100*i+j`. The code is unique only while stays are
  below 100 (`CodeExact`, `CodeCollides`). What is written is stable for all requests and stays exactly when no
  trip has more than 101 stays (`StableExactly`). Without equal differences it is the only stable matching
  (`WrittenUnique`); with them there can be two (`TiesStableTwice`). A stable matching is the only one exactly
  when every candidate it leaves out has a chosen rival that is strictly nearer (`UniqueExactly`).
- The loop of `ListResortViewShopRestTour` ends exactly when there is a list, and either `topNum` is positive or
  the quotas take every item (`ShowLoop.LoopEndsExactly`).
- `datePlusOf` is right exactly when the wraps of its two 32-bit products cancel (`PlusExact`), and
  `compareDayStr` exactly when both times wrap equally often (`CompareExact`). From 1970 to 19 January 2038 both
  are always right (`PlusRight`, `CompareRight`).
  `GetReqDateList` loops for ever exactly when its end is later than that and not before its start
  (`DateList.LoopEndsExactly`).
- `toTime` miscounts the days of three years in four between 1902 and 1969 (`ClosedFormExact`).
- A request comes back as it was sent exactly when its path has no NUL, no `?` and no ` HTTP/` (`RequestExact`).
- `parseREQLine` drops the first character of the uri only if a query follows (`NoQuery`, `WithQuery`). A target that
  begins with its `?` makes the uri run to the end of the request (`QueryFirst`).
- After `flush`, a caller can still return exactly when every worker it waits for has been started
  (`ReturnsAfterFlush`).
- `reloadData` must return new memory: if it returns v, some continuation leaves a thread with deleted memory
  exactly when v is in memory or was deleted before (`ReloadExact`).
- With no cluster wanted, hierarchical clustering finds nothing unless there is nothing to place (`ClusteringsCount`).
- The comment on `GreedSwitchAllPoint`'s list says all remaining times in it are negative; a day can also be
  there because it has too many places, and the model follows the code.

## Model

| member | source | states |
|---|---|---|
| `PathHeap.CanPushSound` | PPView/Route/bag/SPathHeap.cpp:30-37 | When CanPush refuses a bound, Push would refuse every path no better than it, and leave heap and hash set as they are |
| `PathHeap.OfferConserves` | PPView/Route/bag/SPathHeap.cpp:55-82 | Push loses nothing: heap and returned path together are the old heap and the new path |
| `PathHeap.OfferAllHolds` | PPView/Route/bag/SPathHeap.cpp:55-82 | With injective hashes the heap always holds exactly the K best of everything offered so far, repeated offers included |
| `PathHeap.OfferAllGuards` | PPView/Route/bag/SPathHeap.cpp:55-82 | Whatever the other hashes are, a path of the K best that no hash collision touches is kept from its offer on |
| `PathHeap.TopKUnique` | PPView/Route/bag/SPath.h:107-119 | The K best paths of a set are one list: SPathCmp leaves no choice |
| `PathHeap.TopKMeans` | PPView/Route/bag/SPath.h:107-119 | The K best are ranked, and set apart from the rest, by miss level, then clashes, then score from the highest, then hash |
| `PathHeap.OrderIrrelevant` | PPView/Route/bag/SPathHeap.cpp:55-82 | If the K best exist and are clear of collisions they are what is left, for every order and repetition of offers |
| `PathHeap.OrderExact` | PPView/Route/bag/SPathHeap.cpp:55-82 | Every order of offers ends with the K best if and only if none of them shares its hash with another path |
| `PathHeap.ClashFirst` | PPView/Route/bag/SPathHeap.cpp:67-75 | Of two paths with one hash the first one offered keeps the other out for ever, whatever else is offered |
| `PathHeap.InjectiveClear` | PPView/Route/bag/SPathHeap.cpp:55-82 | If equal hashes mean equal paths, any set has its K best, clear of collisions |
| `PathHeap.SPathHeap.Push` | PPView/Route/bag/SPathHeap.cpp:55-82 | The queue, the hash set and the returned path after a push, and the heap's invariant |
| `DayPlan.CalClash` | PPView/Route/bag/DFS.cpp:72-155 | The loop computes the greedy choice of windows, with its early exits, meal flags and first-leg mark |
| `ClashTheory.PickFirst` | PPView/Route/bag/DFS.cpp:98-145 | The greedy step takes the first window that fits, unless that visit would end after the day's stop time |
| `ClashTheory.GreedyStep` | PPView/Route/bag/DFS.cpp:98-145 | Whatever window another traveller uses, the greedy one finds one too and stays at least as early and as free |
| `ClashTheory.HidesCheck` | PPView/Route/bag/DFS.cpp:98-145 | Whether a window hides a later one at any arrival is decided at one arrival |
| `ClashTheory.ClashExact` | PPView/Route/bag/DFS.cpp:72-155 | Over safe places, clash 0 if and only if some choice of windows and waiting times keeps the order |
| `KeptMeaning.KeepableMeans` | PPView/Route/bag/DFS.cpp:72-155 | An order can be kept if and only if it has a timetable: each visit in one of its windows, no earlier than one can be there, no meal twice, back by the stop time |
| `KeptMeaning.ClashMeans` | PPView/Route/bag/DFS.cpp:72-155 | Over safe places clash 0 if and only if the order has a timetable |
| `ClashTheory.SortedSafe` | PPView/Route/bag/DFS.cpp:98-145 | Windows in order of opening, and lunches that close before any supper opens, are safe |
| `ClashLimits.HiddenClash` | PPView/Route/bag/DFS.cpp:98-145 | Any window that hides a later one at some arrival gives a day that can be kept and is reported as a clash |
| `ClashLimits.MealsClash` | PPView/Route/bag/DFS.cpp:98-145 | Any two restaurants whose meals do not fit together give such a day with one more view, open at one moment |
| `ClashLimits.ClashRightExactly` | PPView/Route/bag/DFS.cpp:72-155 | CalClash is right for every day and order over given places and any views with one window if and only if no window hides a later one and all meals fit |
| `ClashLimits.ViewsRightExactly` | PPView/Route/bag/DFS.cpp:72-155 | Over given views, and any with one window, it is right if and only if no window hides a later one |
| `DaySearch.ScoreFalls` | PPView/Route/bag/DFS.cpp:380-386 | The score never rises as a path grows |
| `DaySearch.PruneExact` | PPView/Route/bag/DFS.cpp:56-58 | Where the search is cut off, offering every leaf below would leave heap and hash set unchanged |
| `DaySearch.DFS.Search` | PPView/Route/bag/DFS.cpp:27-70 | Pruned or not, the heap ends as if all leaves below had been offered, and every backtracking field is restored |
| `DaySearch.DFS.SearchView` | PPView/Route/bag/DFS.cpp:187-209 | The same for the orders that continue with one view |
| `DaySearch.DFS.SearchRest` | PPView/Route/bag/DFS.cpp:211-260 | The same for one restaurant, under the lunch-then-supper rule; the meal flags come back |
| `DaySearch.DFS.PushPath` | PPView/Route/bag/DFS.cpp:157-185 | A finished order is offered with its visits, distance, clash, mark, score and hash unless it cannot be accepted; DayMeaning.SearchDescribes says what they are |
| `DaySearch.DoSearch` | PPView/Route/bag/DFS.cpp:9-25 | The day's list is that of the unpruned search; a day with too many nodes gives none |
| `DayOptimal.LeavesExact` | PPView/Route/bag/DFS.cpp:60-68 | The search reaches an order if and only if all its legs exist and the meal rule accepts every restaurant |
| `DayOptimal.SearchVisitsAll` | PPView/Route/bag/DFS.cpp:27-70 | Every admissible order of the day is visited, exactly once |
| `DayOptimal.DayPathsExact` | PPView/Route/bag/DFS.cpp:157-185 | The paths offered are those of the admissible orders with a defined clash |
| `DayOptimal.DaySearchOptimal` | PPView/Route/bag/DFS.cpp:9-70 | The heap is left with exactly the K best of all admissible orders, if these are clear of hash collisions |
| `DayOptimal.BestDayKeepable` | PPView/Route/bag/DFS.cpp:9-155 | Over safe places, the best path kept has no clash if and only if some admissible order can be kept at all |
| `DayMeaning.AdmissibleMeans` | PPView/Route/bag/DFS.cpp:187-260 | An order is admissible if and only if it visits each place once between the first and the last node along legs that exist, and its restaurants serve the meals still needed, lunch first |
| `DayMeaning.TotalMeans` | PPView/Route/bag/DFS.cpp:380-386 | Distance, walking and rides of an order are the sums over its legs |
| `DayMeaning.MarkMeans` | PPView/Route/bag/DFS.cpp:98-145 | The first-lunch mark is set if and only if the order begins with a restaurant whose first fitting window opens too long after the arrival |
| `DayMeaning.SearchDescribes` | PPView/Route/bag/DFS.cpp:157-185 | Every path in the list of a day visits, in turn, the places of one whole day, with the sum of its legs as distance, the score its rides, walking and mark give, and the hash of its visits |
| `JoinDays.DFSWorker.JoinDayPath` | PPView/Route/bag/DFSWorker.cpp:41-99 | The recursion offers every combination of day paths that begins with the chosen ones, and restores tmpList |
| `JoinDays.JoinedExact` | PPView/Route/bag/DFSWorker.cpp:88-97 | The joined routes are exactly those of one path of each day; RouteMeaning.RoutesMean says what they visit |
| `RouteMeaning.RoutesMean` | PPView/Route/bag/DFSWorker.cpp:41-99 | A route is joined if and only if it visits, day after day, what one path of each day visits, with the sums of their distances, clashes, marks and scores and the heat, miss level and hash of the root |
| `JoinDays.JoinOptimal` | PPView/Route/bag/DFSWorker.cpp:41-99 | Joining the days' best paths is best in (total clash, total score) among all combinations of all days' paths, kept or not |
| `JoinDays.JoinSingle` | PPView/Route/bag/DFSWorker.cpp:88-97 | With one path kept for each day there is one joined path |
| `JoinDays.JoinNothing` | PPView/Route/bag/DFSWorker.cpp:88-97 | A day without a path leaves no joined path |
| `MergeHeaps.ThreadMemPool.GetDFSHeap` | PPView/Route/bag/ThreadMemPool.cpp:39-44 | The heap of a hash, made empty if there is none; all other heaps stay as they are |
| `MergeHeaps.ThreadMemPool.DoWork` | PPView/Route/bag/DFSWorker.cpp:10-38 | A job changes one heap, that of its point-set hash, by offering all joined routes of its days |
| `MergeTheory.RunThread` | PPView/Route/bag/MyThreadPool.cpp:117-137 | A thread's heaps after all its jobs, as a function of the jobs |
| `MergeTheory.RunGuards` | PPView/Route/bag/DFSWorker.cpp:10-38 | A thread's heap of a hash keeps each of the overall K best that its jobs offered there, whatever its other offers' hashes |
| `MergeTheory.RunHolds` | PPView/Route/bag/DFSWorker.cpp:10-38 | A thread's heap of a hash holds the K best of what its jobs offered there, if these are clear of collisions |
| `MergeTheory.MergedNext` | PPView/Route/bag/DFSearch.cpp:81-97 | Merging one more heap of a thread, in any order of its paths, feeds the merged heap of its hash and no other |
| `MergeTheory.QueueSumOrder` | PPView/Route/bag/DFSearch.cpp:100-105 | The paths of all merged heaps are one multiset, in whatever order the heaps come |
| `MergeTheory.QueuesKeep` | PPView/Route/bag/DFSearch.cpp:79-98 | The threads' lists of a hash together still have the K best of everything offered, and nothing that was not offered |
| `MergeTheory.ScheduleIrrelevant` | PPView/Route/bag/DFSearch.cpp:66-111 | However jobs are spread over threads and ordered, every merged list equals that of one heap running all jobs and is the K best routes, if these are clear of collisions |
| `BestRoute.SearchOptimal` | PPView/Route/bag/DFSearch.cpp:23-64 | The first route merged for a point set is at least as good, in miss level, clashes and score, as every choice of one admissible order for each day of every job with that point set, for every schedule |
| `RouteMeaning.MergedMeans` | PPView/Route/bag/DFSearch.cpp:66-111 | Every route merged for a point set visits, for one job with that point set, the places of one whole day of each of its days in order |
| `KeepableRoute.CleanExact` | PPView/Route/bag/DFSWorker.cpp:10-38 | Over safe places a job offers a route without clashes if and only if each of its days has an admissible order that can be kept |
| `KeepableRoute.FirstRouteKeepable` | PPView/Route/bag/DFSearch.cpp:23-64 | Over safe places and for every schedule, the first route of a point set has no clash if and only if some job of least miss level for it has an order to keep for each day |
| `PathOwner.SPathAlloc.New` | PPView/Route/bag/SPathAlloc.h:24-33 | The path handed out is held nowhere else; every path made stays free or held, once |
| `PathOwner.SPathAlloc.Delete` | PPView/Route/bag/SPathAlloc.h:34-39 | A held path goes back to the free list, wiped |
| `PathOwner.Push` | PPView/Route/bag/SPathHeap.cpp:55-82 | Push on the paths themselves: the values kept and returned are those of the heap, and no path is lost or doubled |
| `PathOwner.OfferTo` | PPView/Route/bag/DFS.cpp:165-183 | A new path goes to the heap, which then holds what an offer makes of it; what it gives back is freed, and no other path changes |
| `PathOwner.MemPool.DoWork` | PPView/Route/bag/DFSWorker.cpp:10-38 | Through searches, join and release of the day lists, every path stays free or in one heap, at one place; the heap of the job's hash holds what the job's offers make of it, the others what they held |
| `PathOwner.MemPool.Clear` | PPView/Route/bag/ThreadMemPool.cpp:18-37 | Every path the allocator ever made is back in its free list |
| `PathMerge.MergeDFS` | PPView/Route/bag/DFSearch.cpp:66-124 | Every hash of some thread gets a heap fed with just what the threads hold for it; the paths returned are new and hold, each as often, what those heaps keep; all threads' paths are free again |
| `DayPermutation.SwapTwoDays` | PPView/Route/bag/RouteSearch.cpp:219-226 | Two days change places |
| `DayPermutation.OrdersExact` | PPView/Route/bag/RouteSearch.cpp:228-255 | Perm tries an order if and only if it rearranges the days of the range and leaves the others fixed |
| `DayPermutation.OrdersDistinct` | PPView/Route/bag/RouteSearch.cpp:228-255 | With different days no order is tried twice |
| `DayPermutation.OrdersNumbered` | PPView/Route/bag/RouteSearch.cpp:228-255 | Perm tries m! orders of m days; the n-th one is found from the digits of n, each saying which day changes places with the next one |
| `DayPermutation.Perm` | PPView/Route/bag/RouteSearch.cpp:228-255 | Returns 0 and the accepted order, or 1 and the days as they were; the orders laid out are those up to the first accepted one |
| `DayPermutation.PermComplete` | PPView/Route/bag/RouteSearch.cpp:228-255 | It succeeds if and only if some rearrangement is accepted; otherwise every rearrangement was tried, each once |
| `DayPermutation.ChooseRange` | PPView/Route/bag/RouteSearch.cpp:97-112 | The first day, the last day and the empty days before it keep their places |
| `HierCluster.EdgesExact` | PPView/Route/bag/MyCluster.cpp:60-79 | Whatever the sort does with ties, the edges are all pairs of non-empty clusters, nearest first |
| `HierCluster.HierarchicalClustering.CanMerge` | PPView/Route/bag/MyCluster.cpp:138-168 | A merge is allowed once for each depth and outcome, and recorded |
| `HierCluster.HierarchicalClustering.Merge` | PPView/Route/bag/MyCluster.cpp:170-182 | Two clusters become one, and the edges are computed anew |
| `HierCluster.HierarchicalClustering.DfsCluster` | PPView/Route/bag/MyCluster.cpp:102-136 | Merging in place from depth 3 on gives the results and records of the search that always copies, with the nearest merges recorded, and above that the argument is left alone |
| `HierCluster.DfsRecords` | PPView/Route/bag/MyCluster.cpp:102-136 | At every clustering the outcomes of the nearest merges are recorded until three were new, or one from depth 3 on, or every edge was tried |
| `ClusterSearch.ClusteringsFull` | PPView/Route/bag/MyCluster.cpp:102-136 | Every recorded outcome is searched on in the same way, and the results are those of the last merges, each once |
| `ClusterOnce.OneMerge` | PPView/Route/bag/MyCluster.cpp:81-136 | With one merge to make there are min(3, n(n-1)/2) clusterings, those that put the nearest pairs together, nearest first |
| `HierCluster.HierarchicalClustering.Run` | PPView/Route/bag/MyCluster.cpp:81-100 | The clusterings found are those of the copying search |
| `ClusterTheory.ClusteringsPartition` | PPView/Route/bag/MyCluster.cpp:81-136 | Every clustering puts every place into one of min(n, clusterNum) non-empty clusters |
| `ClusterTheory.ClusteringsDiffer` | PPView/Route/bag/MyCluster.cpp:138-168 | No two clusterings are the same, whatever the order of their clusters |
| `ClusterTheory.ClusteringsCount` | PPView/Route/bag/MyCluster.cpp:102-136 | There are at most 27, and at least one if and only if a cluster is wanted or there is nothing to place |
| `ClusterTheory.FilterAndPad` | PPView/Route/bag/MyCluster.cpp:418-433 | Exactly clusterNum clusters: the non-empty ones in rotated order, then empty ones |
| `ClusterTheory.RotatedAt` | PPView/Route/bag/MyCluster.cpp:418-433 | Rotated by i, the k-th cluster is the one at (k + i) mod the length |
| `DayMoves.HomeNearest` | PPView/Route/bag/MyCluster.cpp:630-640 | A place's day is the first at the least distance below infinity; it has none if and only if all distances are infinite |
| `DayMoves.RoundNearest` | PPView/Route/bag/MyCluster.cpp:623-707 | A round puts a place into an open day at the least distance from it, the centre's or 0 for a day without play, the first of equals; it drops a place if and only if no open day is near enough |
| `DayKmeans.MyKmeans.CalColumn` | PPView/Route/bag/MyCluster.cpp:676-707 | One day's distances anew: closed places infinitely far, the open ones of a day without play at 0, the others at the distance of the centre |
| `DayKmeans.MyKmeans.KmeansAdjust` | PPView/Route/bag/MyCluster.cpp:623-666 | Every place goes to its nearest day; lists, sets, durations and remaining times agree, and no place is in a closed day |
| `DayMoves.DroppedExactly` | PPView/Route/bag/MyCluster.cpp:630-643 | A place is dropped if and only if no day admits it |
| `DayGroups.MovedInv` | PPView/Route/bag/MyCluster.cpp:913-932 | A move keeps each place in one day at most and all books right |
| `DayGroups.MovedKeeps` | PPView/Route/bag/MyCluster.cpp:803-825 | A move loses no place, keeps the target day legal, and does not empty a day that can be played |
| `DayKmeans.MyKmeans.MovePoint` | PPView/Route/bag/MyCluster.cpp:934-961 | One place changes days, both days' distances are renewed and no other day's |
| `DayKmeans.MyKmeans.FindMove` | PPView/Route/bag/MyCluster.cpp:780-822 | The cheapest possible move of a place out of a day, the first among equals, or none if there is none |
| `DayKmeans.MyKmeans.TrimOnce` | PPView/Route/bag/MyCluster.cpp:769-832 | The move made is the best among places that stand alone, or if there is none the best among all; the new days, sets and distances |
| `MoveMeaning.CanGoMeans` | PPView/Route/bag/MyCluster.cpp:769-812 | A place may move if its day keeps one or is without play, and the other day has time and room for it; with care only if it costs something where it is and stands more than 300 from the others of its day |
| `MoveMeaning.ChosenMeans` | PPView/Route/bag/MyCluster.cpp:769-832 | A turn makes the cheapest careful move, the first among equals; the cheapest of all if there is none; and none if and only if nothing is possible |
| `MoveMeaning.MovedMeans` | PPView/Route/bag/MyCluster.cpp:913-961 | The place leaves its day in order, comes last in the new one and takes its time along; no other day changes |
| `DayMoves.TurnKeeps` | PPView/Route/bag/MyCluster.cpp:769-832 | Any such turn loses no place and adds none, keeps legal days legal, empties no playable day and reaches no closed one |
| `DayMoves.TurnBlocked` | PPView/Route/bag/MyCluster.cpp:826-830 | When a turn finds nothing, no place of the day can go to any legal day |
| `DayKmeans.MyKmeans.TrimDay` | PPView/Route/bag/MyCluster.cpp:765-833 | The loop stops, after some number of turns, with the day legal or the last turn saying stop |
| `DayMoves.TurnsKeep` | PPView/Route/bag/MyCluster.cpp:765-833 | However many turns it takes, all that a turn keeps is kept |
| `DayKmeans.MyKmeans.GreedSwitchAllPoint` | PPView/Route/bag/MyCluster.cpp:738-835 | Every overfull day is trimmed once, least time left first; places are conserved, legal days stay legal and only gain, the others only lose |
| `DayMoves.RebalancedKeeps` | PPView/Route/bag/MyCluster.cpp:738-835 | Any such rebalancing keeps every place, every legal day legal, a place in every playable day that had one, and closed days closed |
| `DayKmeans.MyKmeans.Run` | PPView/Route/bag/MyCluster.cpp:837-911 | One to ten rounds of assigning and rebalancing, fewer than ten only if the last one ended with the days it began with; all of this holds, and a place is in no day if and only if the last round found every day infinitely far from it |
| `HotUpdate.MJHotUpdate.AddSharedDataPtr` | http/MJHotUpdate.cpp:256-266 | A thread is registered with the new version if there is one, otherwise with the current one |
| `HotUpdate.MJHotUpdate.DelSharedDataPtr` | http/MJHotUpdate.cpp:268-274 | A thread's registration is cleared, and nothing else |
| `HotUpdate.MJHotUpdate.TryRetire` | http/MJHotUpdate.cpp:292-315 | The old version is deleted and replaced if and only if no thread is registered with it |
| `HotUpdate.MJHotUpdate.GetUpdateTime` | http/MJHotUpdate.cpp:132-177 | A table's answer becomes its newTS, no answer leaves it, lastTS is the old newTS; an update is needed if and only if some answer differs from the old newTS |
| `HotUpdate.MJHotUpdate.AfterReload` | http/MJHotUpdate.cpp:342-355 | A failed reload takes every table's newTS back to its lastTS |
| `HotUpdate.MJHotUpdate.InstallNew` | http/MJHotUpdate.cpp:375-379 | The reloaded data becomes the new version, and nothing else changes |
| `HotUpdate.NextInv` | http/MJHotUpdate.cpp:256-379 | Every step of every thread keeps the invariant |
| `HotUpdate.RunSafe` | http/MJHotUpdate.cpp:256-315 | In every run a registered version is alive and not deleted, and at most two versions are alive |
| `HotUpdate.DeleteOnce` | http/MJHotUpdate.cpp:293-313 | A step deletes only the old version, which was alive and unused |
| `HotUpdate.DeletedForGood` | http/MJHotUpdate.cpp:293-313 | A deleted version is never used nor alive again |
| `HotUpdate.AcquireNewest` | http/MJHotUpdate.cpp:256-266 | Every acquire gets the version installed last |
| `HotUpdate.NeverOlder` | http/MJHotUpdate.cpp:256-266 | No thread ever goes back to an older version |
| `HotUpdate.RunIntervals` | http/MJHotUpdate.cpp:317-379 | Reload intervals join up from the initial stamps to those of the newest version, across failures and skipped rounds |
| `HotUpdate.QueryNotices` | http/MJHotUpdate.cpp:132-177 | In every run a query goes on to a reload if and only if some answer differs from the stamp built into the newest version |
| `HotUpdate.AnswersInstalled` | http/MJHotUpdate.cpp:317-379 | The version built after a query and installed is the newest, and its stamps are the answers to that query, or those of the version before where there was none |
| `HotUpdate.UsersDecrease` | http/MJHotUpdate.cpp:256-274 | While a new version waits, the users of the old one only decrease |
| `HotUpdate.GracePeriod` | http/MJHotUpdate.cpp:293-313 | Once every thread has acquired or released, the next retire step deletes the old version |
| `HotReload.ReloadExact` | http/MJHotUpdate.cpp:342-378 | If reloadData returns v, some continuation leaves a thread with deleted memory if and only if v is in memory or was deleted before |
| `TaskList.LinkedList.Add` | threads/linked_list.hpp:23-29 | The ring gains a node behind its head |
| `TaskList.LinkedList.Del` | threads/linked_list.hpp:47-51 | The ring loses a node at any place and stays a ring |
| `TaskList.WaitList.Put` | threads/wait_list.hpp:28-38 | The task is queued last, or not at all after a flush; the count stays right |
| `TaskList.WaitList.Get` | threads/wait_list.hpp:40-58 | The oldest task is taken off the queue; after a flush there is none, and the queue stays |
| `TaskList.WaitList.GetTimed` | threads/wait_list.hpp:60-84 | The same, empty-handed when time ran out on an empty queue |
| `TaskList.WaitList.GetFromHead` | threads/wait_list.hpp:86-104 | The newest task is taken off the queue |
| `TaskList.WaitList.Flush` | threads/wait_list.hpp:106-112 | The list is closed and keeps its tasks |
| `WorkerPool.NextInv` | PPView/Route/bag/MyThreadPool.cpp:100-153 | Every step of every thread and caller keeps the invariant |
| `WorkerPool.ExactlyOnce` | PPView/Route/bag/MyThreadPool.cpp:100-137 | In every run each submitted worker is queued, running in one thread, done, or lost to a flush: never two of these |
| `WorkerPool.Fifo` | PPView/Route/bag/MyThreadPool.cpp:117-137 | Workers start in the order of submission, each once, and no two at a time use one memory pool |
| `WorkerPool.WaitSound` | PPView/Route/bag/MyThreadPool.cpp:139-153 | wait_worker_done returns only when all its workers are done, although it scans forward once |
| `WorkerPool.WaitCompletes` | PPView/Route/bag/MyThreadPool.cpp:139-153 | Once they are done it can always return |
| `WorkerPool.Abandoned` | PPView/Route/bag/MyThreadPool.cpp:106-115 | After a flush no queued worker ever starts, and nobody waiting for one returns |
| `WorkerPool.StartedReturns` | PPView/Route/bag/MyThreadPool.cpp:106-153 | After a flush, if every worker waited for has been started, the threads and the waiter have steps that let it return |
| `WorkerPool.ReturnsAfterFlush` | PPView/Route/bag/MyThreadPool.cpp:106-153 | After a flush a waiter can return if and only if every worker it waits for has been started |
| `WorkerPool.WorkShrinks` | PPView/Route/bag/MyThreadPool.cpp:117-137 | Taking and finishing use up the work left, and only submitting adds to it |
| `WorkerPool.RestsWhenDone` | PPView/Route/bag/MyThreadPool.cpp:117-137 | A pool that is not flushed rests only when every accepted worker is done |
| `ShowList.ListResortViewShopRestTour` | PPView/Route/Processor.cpp:306-348 | It returns the list with which the loops end, of min(topNum, all) items, or all if none is asked for, each list from its front; quotas bind while they can fill topNum and come first otherwise |
| `ShowList.EndsOnce` | PPView/Route/Processor.cpp:322-345 | Once the loops have ended nothing changes, so that list is the only one |
| `ShowList.VisitList` | PPView/Route/Processor.cpp:322-345 | One visit computes the step of the closed form and keeps counts, quotas and phase |
| `ShowList.VisitTake` | PPView/Route/Processor.cpp:322-345 | Visit by visit the output follows the closed form of the round robin, list by list and perNum at a time |
| `ShowMeaning.InterleavesMeans` | PPView/Route/Processor.cpp:322-345 | A list is an interleaving if and only if each item is the first one not yet taken of the list it comes from |
| `ShowLoop.LoopEndsExactly` | PPView/Route/Processor.cpp:322-345 | Where every visit may take something, the loop ends if and only if there is a list, and something is asked for or the quotas take every item |
| `ReferMatching.CollectCands` | PPView/Route/Planner.cpp:430-452 | The candidates are exactly the compatible pairs, by difference and then in order of insertion |
| `MatchTheory.OrderedMeans` | PPView/Route/Planner.cpp:430-452 | Candidates are in order if and only if smaller differences come first, then earlier requests, trips and stays |
| `ReferMatching.SetReferOriginViews` | PPView/Route/Planner.cpp:430-476 | What is written comes from the greedy choice over the ordered candidates; stable when no trip has more than 101 stays |
| `ReferMatching.MatchingStable` | PPView/Route/Planner.cpp:454-476 | Only compatible views, none twice, and for every compatible pair one side is matched at a difference no larger |
| `MatchTheory.StableMeans` | PPView/Route/Planner.cpp:454-476 | Stable, in terms of requests, stays and seconds: only inner stays of the same city and kind, none twice, and of every fitting pair one side is matched at least as near |
| `MatchUnique.UniqueExactly` | PPView/Route/Planner.cpp:454-476 | A stable matching is the only one if and only if every candidate it leaves out has a chosen rival that is strictly nearer |
| `MatchUnique.WrittenUniqueExactly` | PPView/Route/Planner.cpp:430-476 | So it is for what is written for trips of at most 101 stays |
| `MatchUnique.StableUnique` | PPView/Route/Planner.cpp:454-476 | If no two candidates that share a request or a view have the same difference, there is one stable matching |
| `MatchUnique.WrittenUnique` | PPView/Route/Planner.cpp:454-476 | Then, for trips of at most 101 stays, any stable matching is the one written |
| `MatchTheory.TiesStableTwice` | PPView/Route/Planner.cpp:454-476 | With equal differences there can be two stable matchings |
| `ReferMatching.CodeExact` | PPView/Route/Planner.cpp:447-462 | A code is read back right if and only if the stay's index is below 100 |
| `ReferMatching.CodeCollides` | PPView/Route/Planner.cpp:447-462 | Every stay from 100 on shares its code with a stay of the next trip |
| `MatchTheory.LongTripWritten` | PPView/Route/Planner.cpp:447-476 | For any trips of which one is longer than 101, one request and one fitting stay make what is written unstable |
| `MatchTheory.StableExactly` | PPView/Route/Planner.cpp:430-476 | What is written is stable for all requests and all stays of given trip lengths if and only if no length exceeds 101 |
| `UrlCode.UrlEncode` | common/src/AuxTools.cpp:124-146 | The loop prints every byte as the encoding says |
| `UrlCode.UrlDecode` | common/src/AuxTools.cpp:148-164 | The loop decodes from left to right, escapes only where two hex digits follow |
| `UrlCode.DecodeEncode` | common/src/AuxTools.cpp:124-164 | Decoding undoes encoding for every byte string |
| `UrlCode.EncodeMeans` | common/src/AuxTools.cpp:124-146 | Letters, digits, "-", "_", "." and "~" are printed as they are, a blank as "+", any other byte as "%" and two upper-case digits |
| `UrlCode.EscapeRead` | common/src/AuxTools.cpp:148-164 | "%" and two hexadecimal digits of either case are decoded to the byte they count |
| `UrlCode.OtherRead` | common/src/AuxTools.cpp:148-164 | "+" is decoded to a blank; any character that begins no whole escape stays |
| `UrlCode.EncodeCoded` | common/src/AuxTools.cpp:124-146 | An encoding has only unreserved characters, '+' and '%' |
| `QueryText.ParseParams` | http/HttpDefine.cpp:13-36 | Keys run to the next '=', values to the next '&', and later pairs win |
| `RequestForms.NextPairRead` | http/HttpDefine.cpp:13-36 | A key runs to the first "=", its value to the first "&" after that, where reading goes on |
| `RequestForms.LastPair` | http/HttpDefine.cpp:13-36 | Without such an "&" the value is the rest of the text |
| `RequestForms.NoKey` | http/HttpDefine.cpp:13-36 | Text without "=" adds nothing |
| `QueryText.ParamsPrinted` | http/HttpDefine.cpp:13-36 | Parsing a printed query gives its pairs, whatever bytes the values hold |
| `HttpQuery.MJHttpRequest.ParseREQLine` | http/HttpDefine.cpp:38-65 | Method, uri, parameters and version from the places where the request is cut |
| `RequestForms.NoQuery` | http/HttpDefine.cpp:38-65 | A target without "?" is the uri as a whole, with its first character, and there is no query |
| `RequestForms.WithQuery` | http/HttpDefine.cpp:38-65 | With a "?" behind its first character the uri lacks that character and ends before the "?"; the query follows |
| `RequestForms.QueryFirst` | http/HttpDefine.cpp:38-65 | With the "?" first the length of the uri wraps round, and it is all that follows, to the end of the request |
| `HttpQuery.MJHttpRequest.GetKeyInfo` | http/HttpDefine.cpp:96-168 | Each key field from its parameter or as before, cur_id to refer_id and next_id to cur_id; other parameters stay |
| `HttpQuery.MJHttpRequest.ParseREQ` | http/HttpDefine.cpp:170-193 | An incomplete head changes nothing; a complete one is read once |
| `RequestForms.PlainRequest` | http/HttpDefine.cpp:170-193 | A GET request without a query is read with its uri and version, and every key keeps its initial value |
| `RequestForms.BrokenLine` | http/HttpDefine.cpp:38-65 | A head without a blank leaves the new object as it is and counts as read; one without a version mark changes the method alone |
| `HttpQuery.MJSocketSession.MakeGetUrl` | http/SocketClientEpoll.cpp:236-252 | The path, '?', and the twelve keys in order with encoded values |
| `HttpQuery.MJSocketSession.MakeHttpRequest` | http/SocketClientEpoll.cpp:222-234 | The request, cut at the first NUL and without one leading slash |
| `RequestForms.MessageMeans` | http/SocketClientEpoll.cpp:222-234 | The request for a url is the same with and without a leading slash, and nothing from a NUL on is in it |
| `RequestTheory.HeadComplete` | http/SocketClientEpoll.cpp:222-234 | Every printed request has a complete head |
| `RequestTheory.KeysRead` | http/HttpDefine.cpp:96-168 | After parsing, each key sent is read with its own value, and nothing is left over |
| `RequestForms.PairsRead` | http/HttpDefine.cpp:96-168 | For any printed pairs with different names, each field takes the value sent under its name or keeps its own, and the pairs with other names are left |
| `RequestTheory.RequestRead` | http/HttpDefine.cpp:38-65 | For all bytes in all keys the server gets the same fields, with the sender's cur_id as refer_id and next_id as cur_id |
| `RequestTheory.RequestExact` | http/HttpDefine.cpp:38-65 | It does so if and only if the path has no NUL, no '?' and no version mark |
| `Calendar.DayNoOf` | common/src/MyTime.h:76-106 | The day count agrees with stepping from day to day, forwards and backwards |
| `Calendar.DayNoOrder` | common/src/MyTime.h:119-125 | The day count keeps the order of dates |
| `Calendar.ClosedFormExact` | common/src/MyTime.h:93-103 | From 1902 on toTime's formula is the day count if and only if the year is 1970 or later, or one in four before |
| `Calendar.MonthLengths` | common/src/MyTime.h:12 | The months have 31, 30 and, by the leap-year rule, 28 or 29 days |
| `DateText.StrTol` | common/src/MyTime.h:81-90 | Blanks, a sign and the longest run of digits, or 0 where there is none |
| `DateText.NumberMeans` | common/src/MyTime.h:81-90 | What it reads, by the places where blanks, sign and digits end |
| `DateText.ReadMeans` | common/src/MyTime.h:81-90 | A run of digits is read in base ten, the last digit counting once |
| `DateText.TextOrder` | PPView/Route/LightPlan.cpp:304-306 | Texts of days are ordered as the days are |
| `DateList.ToTime` | common/src/MyTime.h:76-106 | The seconds of the day, hours and minutes that a text shows, in any zone, with the wraps of its int products |
| `DateList.InstantExact` | common/src/MyTime.h:76-106 | From 1970 on, in a zone of whole seconds, toTime gives the instant that the local day and time name if and only if its two wraps cancel |
| `DateList.InstantRead` | common/src/MyTime.h:76-106 | Up to 17 January 2038, in zones within a day of Greenwich, it always does |
| `DateList.StampRead` | common/src/MyTime.h:76-90 | A printed day, with or without hours and minutes, is read as it was meant |
| `DateList.CompareDayStr` | common/src/MyTime.h:119-125 | The difference of two days' seconds in days |
| `Calendar.QuotMeans` | common/src/MyTime.h:119-125 | The division cuts towards zero: the remainder has the sign of the dividend |
| `DateList.DatePlusOf` | common/src/MyTime.h:131-135 | The text of the day that the wrapped sums lead to |
| `DateList.PlusExact` | common/src/MyTime.h:131-135 | datePlusOf is right if and only if its two wraps cancel |
| `DateList.CompareExact` | common/src/MyTime.h:119-125 | compareDayStr is right if and only if both times wrap equally often |
| `DateList.LastDayIs` | common/src/MyTime.h:104 | A day number from 1970 on has no wrap in its product with 86400 if and only if it is at most that of 19 January 2038 |
| `DateList.CompareUndoesPlus` | common/src/MyTime.h:119-135 | Up to that day compareDayStr(d, datePlusOf(d, n)) is n |
| `DateList.LoopEndsExactly` | PPView/Route/LightPlan.cpp:304-306 | The date loop ends if and only if the list is empty or its last day is no later than that |
| `DateList.CityInfo.GetReqDateList` | PPView/Route/LightPlan.cpp:293-309 | Exactly the successive days from the first to the last asked for |

## Left out

- ShowList.ListResortViewShopRestTour: requires perNum at least 1 and no negative maxNum, one for each list, as its callers pass; of those inputs it takes all on which the original ends (ShowLoop.LoopEndsExactly).
- ReferMatching.SetReferOriginViews: the check-in and check-out dates copied beside a view are not modelled.
- DateList.ToTime: requires a month of at most 13, because beyond that the original reads past `mon_day`; numbers that a long or an int cannot hold, and the rounding of the zone's double, are not modelled.
- ClashLimits.ClashRightExactly: the days may hold further views with one window; for the given places alone the meals' condition is only shown to be enough. A restaurant has at most a lunch and a supper, as the source states, and no place has a negative visiting time; with the mark -1 CalClash reports an error.
- DayKmeans.MyKmeans.CalColumn: the centre of a day and the mean distance to it are an arbitrary function of the day's places, so how ties between centres are broken is not modelled; nor is the centre list's equality check, which nothing uses.
- DayKmeans.MyKmeans.Run: the clusters' member lists before the first round are not modelled, because the first KmeansAdjust overwrites them.
- DayPermutation.Perm: the laying out of a route (`TrafRoute::DoRoute`) is an arbitrary predicate on the order, and the route it writes is not modelled.
- PathOwner.MemPool.DoWork: what the searches and the join offer is an input, because pruning leaves offers out; DaySearch and JoinDays say what they come to.
- HotUpdate.MJHotUpdate.InstallNew: the time stamps `_ts` that only the log prints are not modelled.
- WorkerPool.ExactlyOnce: a worker is submitted once, as the source's callers do; putting a node into the list twice would corrupt it.
- WorkerPool.WaitSound: `is_worker_done` is not a step of its own; it reads the states that the waiters' scan reads.
- HttpQuery.MJHttpRequest.ParseREQ: header fields (`parseREQHeader`, read with sscanf) and request bodies are not modelled.
- Time-outs, sleeping, barriers, creating and joining threads: the day search, the join and the pool run to their end.
- `PushV`'s limits on places per path, and its hash mixing: a path is its visits, and its hash an arbitrary function of them.
- `SPathHeap::Push` with duplicates allowed: no caller in the search passes it.
- The dead branch `fillEmpty` in `GreedSwitchAllPoint`: it tests a list for emptiness inside a loop over that list.
- `GetClusterDist`'s choice of the three smallest different distances (its comment says the three smallest): the distance of two clusters is an arbitrary function.
- The thinning of clusterings by `pow`, the choice of places by `StaticRand`, `NormScore`, `DoEval` and `EvalObj`: floating-point heuristics without an exact claim.
- Database, network, JSON, logging and configuration code.
