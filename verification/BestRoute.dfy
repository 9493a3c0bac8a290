/** From the orders of single days to the first route of the merged result (DFSearch::DoSearch). */
module BestRoute {
  import opened PathHeap
  import opened DaySearch
  import opened DayOptimal
  import opened JoinDays
  import opened MergeHeaps
  import opened MergeTheory

  /** Every day can be searched, and its best paths are clear of hash collisions. */
  ghost predicate Searchable(j: Job, dayK: nat)
    requires ValidJob(j)
  {
    forall d :: d in j.days ==> d.n <= DAY_NODE_LIMIT && Clear(dayK, DayPaths(d))
  }

  /** One admissible order for each day of the job, none of which CalClash fails on. */
  ghost predicate Orders(j: Job, os: seq<seq<nat>>)
    requires ValidJob(j)
  {
    |os| == |j.days| && forall b :: 0 <= b < |os| ==> OrderOf(j, os, b)
  }

  ghost predicate OrderOf(j: Job, os: seq<seq<nat>>, b: nat)
    requires ValidJob(j) && b < |os| == |j.days|
  {
    assert j.days[b] in j.days;
    Admissible(j.days[b], os[b]) && PathOf(j.days[b], os[b]).Some?
  }

  /** The route that visits each day in the given order. */
  ghost function RouteOf(j: Job, os: seq<seq<nat>>): SPath
    requires ValidJob(j) && Orders(j, os)
  {
    Join(j.root, DayPathsOf(j, os))
  }

  ghost function DayPathsOf(j: Job, os: seq<seq<nat>>): (ps: seq<SPath>)
    requires ValidJob(j) && Orders(j, os)
    ensures |ps| == |os|
  {
    seq(|os|, b requires 0 <= b < |os| =>
      assert OrderOf(j, os, b) && j.days[b] in j.days;
      PathOf(j.days[b], os[b]).value)
  }

  ghost function PathSets(j: Job): (sets: seq<set<SPath>>)
    requires ValidJob(j)
    ensures |sets| == |j.days|
  {
    seq(|j.days|, b requires 0 <= b < |j.days| => assert j.days[b] in j.days; DayPaths(j.days[b]))
  }

  /** a is at least as good as b in miss level, then clashes, then score. */
  ghost predicate NoWorse(a: SPath, b: SPath) {
    a.missLevel < b.missLevel || (a.missLevel == b.missLevel && LexBest(a.clash, a.score, b.clash, b.score))
  }

  lemma DaysBest(j: Job, dayK: nat)
    requires 1 <= dayK && ValidJob(j) && Searchable(j, dayK)
    ensures BestPerDay(DayLists(j.days, dayK), dayK, PathSets(j)) && SameMiss(PathSets(j))
  {
    var lists, sets := DayLists(j.days, dayK), PathSets(j);
    forall b | 0 <= b < |lists|
      ensures IsTopK(lists[b], dayK, sets[b])
    {
      assert j.days[b] in j.days;
      DayListsAt(j.days, dayK, b);
      DaySearchOptimal(j.days[b], dayK);
    }
    forall b: int, p: SPath | 0 <= b < |sets| && p in sets[b]
      ensures p.missLevel == 0
    {
      assert j.days[b] in j.days;
      DayPathsExact(j.days[b], p);
    }
  }

  lemma OrdersChoose(j: Job, os: seq<seq<nat>>)
    requires ValidJob(j) && Orders(j, os)
    ensures Chooses(PathSets(j), DayPathsOf(j, os))
  {
    var ps, sets := DayPathsOf(j, os), PathSets(j);
    forall b | 0 <= b < |ps|
      ensures ps[b] in sets[b]
    {
      assert OrderOf(j, os, b) && j.days[b] in j.days;
      DayPathsExact(j.days[b], ps[b]);
    }
  }

  /** A job offers a route at least as good as any choice of one order for each of its days. */
  lemma JobOffersBest(j: Job, dayK: nat, os: seq<seq<nat>>) returns (r: SPath)
    requires 1 <= dayK && ValidJob(j) && Searchable(j, dayK) && Orders(j, os)
    ensures r in Routes(j, dayK) && NoWorse(r, RouteOf(j, os))
  {
    var lists, sets := DayLists(j.days, dayK), PathSets(j);
    DaysBest(j, dayK);
    OrdersChoose(j, os);
    JoinOptimal(j.root, lists, dayK, sets, DayPathsOf(j, os));
    r := Join(j.root, Firsts(lists));
  }

  lemma FrontBest(q: seq<SPath>, k: nat, s: set<SPath>, r: SPath)
    requires 1 <= k && IsTopK(q, k, s) && r in s
    ensures q != [] && NoWorse(q[0], r)
  {
    if r in q {
      HeadBest(q, r);
    } else {
      assert q[0] in q;
    }
  }

  lemma JobOffered(jobs: seq<Job>, dayK: nat, i: nat, r: SPath)
    requires 1 <= dayK && (forall i :: 0 <= i < |jobs| ==> ValidJob(jobs[i])) && i < |jobs|
    requires r in Routes(jobs[i], dayK)
    ensures r in Offered(Batches(jobs, dayK), jobs[i].root.hashPointSet)
  {
    var bs, n := Batches(jobs, dayK), jobs[i].root.hashPointSet;
    OfferedExact(bs, n, r);
    assert bs[i] in bs && r in Routed(bs[i], n);
  }

  /** The whole search: for every assignment of jobs to threads and every order in which they run, the
      first route merged for a point set is at least as good as every choice of one admissible order for
      each day of every job with that point set, whatever the days' heaps and the threads' heaps dropped. */
  lemma SearchOptimal(jobs: seq<Job>, threads: seq<seq<Batch>>, dayK: nat, k: nat, merged: Heaps,
                      i: nat, os: seq<seq<nat>>)
    requires 1 <= k && 1 <= dayK && forall i :: 0 <= i < |jobs| ==> ValidJob(jobs[i])
    requires forall b :: b in Batches(jobs, dayK) <==> exists t :: 0 <= t < |threads| && b in threads[t]
    requires Merged(Pools(threads, k), k, merged)
    requires i < |jobs| && Searchable(jobs[i], dayK) && Orders(jobs[i], os)
    requires Clear(k, Offered(Batches(jobs, dayK), jobs[i].root.hashPointSet))
    ensures var n := jobs[i].root.hashPointSet;
      n in merged && merged[n].queue != [] && NoWorse(merged[n].queue[0], RouteOf(jobs[i], os))
  {
    var all, n := Batches(jobs, dayK), jobs[i].root.hashPointSet;
    var r := JobOffersBest(jobs[i], dayK, os);
    JobOffered(jobs, dayK, i, r);
    ScheduleIrrelevant(all, threads, k, merged, n);
    var q :| IsTopK(q, k, Offered(all, n)) && NoClash(q, Offered(all, n));
    RunGuards(all, k, n, q, Offered(all, n));
    assert all[i] in all && all[i].hash == n;
    FrontBest(merged[n].queue, k, Offered(all, n), r);
  }
}
