/** When the first route of the merged result can really be kept: the opening hours of single days, carried
    through the day searches, the joins and the merge (DFSearch::DoSearch). */
module KeepableRoute {
  import opened Prelude
  import opened PathHeap
  import opened DayPlan
  import opened ClashTheory
  import opened DaySearch
  import opened DayOptimal
  import opened JoinDays
  import opened MergeHeaps
  import opened MergeTheory
  import opened BestRoute

  ghost predicate SafeDay(d: Day)
    requires WellFormed(d)
  {
    Safe(PlacesOf(d)) && forall p :: p in PlacesOf(d) ==> Sound(p)
  }

  ghost predicate SafeJob(j: Job)
    requires ValidJob(j)
  {
    forall d :: d in j.days ==> SafeDay(d)
  }

  ghost predicate KeptOrder(d: Day, o: seq<nat>)
    requires WellFormed(d)
  {
    Admissible(d, o) && Complete(d, o) && Keepable(d, o)
  }

  /** Some admissible order of the day can be kept within opening hours, meals and stop time. */
  ghost predicate DayKeepable(d: Day)
    requires WellFormed(d)
  {
    exists o :: KeptOrder(d, o)
  }

  ghost predicate JobKeepable(j: Job)
    requires ValidJob(j)
  {
    forall d :: d in j.days ==> DayKeepable(d)
  }

  /** Every day has an admissible order, kept or not. */
  ghost predicate JobOrdered(j: Job)
    requires ValidJob(j)
  {
    forall d :: d in j.days ==> exists o :: Admissible(d, o)
  }

  lemma DayPathsOrdered(d: Day)
    requires WellFormed(d) && SafeDay(d)
    ensures DayPaths(d) != {} <==> exists o :: Admissible(d, o)
  {
    SoundTimed(d);
    if p :| p in DayPaths(d) {
      DayPathsExact(d, p);
    }
    if o :| Admissible(d, o) {
      AdmissibleClash(d, o);
      DayPathsExact(d, PathOf(d, o).value);
    }
  }

  lemma DayPathsKeepable(d: Day)
    requires WellFormed(d) && SafeDay(d)
    ensures (exists p :: p in DayPaths(d) && p.clash == 0) <==> DayKeepable(d)
    ensures forall p :: p in DayPaths(d) ==> 0 <= p.clash
  {
    SoundTimed(d);
    forall p | p in DayPaths(d)
      ensures 0 <= p.clash && (p.clash == 0 ==> DayKeepable(d))
    {
      DayPathsExact(d, p);
      var o :| Admissible(d, o) && PathOf(d, o) == Some(p);
      AdmissibleClash(d, o);
      AdmissibleExact(d, o);
      assert p.clash == 0 ==> KeptOrder(d, o);
    }
    if o :| KeptOrder(d, o) {
      AdmissibleClash(d, o);
      AdmissibleExact(d, o);
      DayPathsExact(d, PathOf(d, o).value);
      assert PathOf(d, o).value in DayPaths(d);
    }
  }

  lemma {:induction false} SumClashZero(ps: seq<SPath>)
    requires ClashesCounted(ps)
    ensures SumClash(ps) == 0 <==> forall i :: 0 <= i < |ps| ==> ps[i].clash == 0
  {
    if ps != [] {
      SumClashZero(ps[1..]);
      SumClashNat(ps[1..]);
      assert forall i :: 1 <= i < |ps| ==> ps[i] == ps[1..][i - 1];
    }
  }

  // ----- One job

  /** One path of each day's list: a choice that is joined into a route. */
  ghost predicate PicksOf(j: Job, dayK: nat, ps: seq<SPath>)
    requires 1 <= dayK && ValidJob(j)
  {
    Picks(DayLists(j.days, dayK), [], ps)
  }

  lemma RoutePicks(j: Job, dayK: nat, r: SPath)
    requires 1 <= dayK && ValidJob(j)
    ensures r in Routes(j, dayK) <==> exists ps :: PicksOf(j, dayK, ps) && Join(j.root, ps) == r
  {
    JoinedExact(j.root, DayLists(j.days, dayK), [], r);
    forall ps
      ensures PicksOf(j, dayK, ps) <==> Picks(DayLists(j.days, dayK), [], ps)
    {
    }
  }

  /** What is picked for a day is one of its paths. */
  lemma PickedPath(j: Job, dayK: nat, ps: seq<SPath>, b: nat)
    requires 1 <= dayK && ValidJob(j) && SafeJob(j) && Searchable(j, dayK) && PicksOf(j, dayK, ps) && b < |ps|
    ensures |ps| == |j.days| && j.days[b] in j.days && ps[b] in DayPaths(j.days[b]) && 0 <= ps[b].clash
  {
    DaysBest(j, dayK);
    assert j.days[b] in j.days;
    assert IsTopK(DayLists(j.days, dayK)[b], dayK, PathSets(j)[b]);
    DayPathsKeepable(j.days[b]);
  }

  lemma PickedCounted(j: Job, dayK: nat, ps: seq<SPath>)
    requires 1 <= dayK && ValidJob(j) && SafeJob(j) && Searchable(j, dayK) && PicksOf(j, dayK, ps)
    ensures ClashesCounted(ps)
  {
    forall p | p in ps
      ensures 0 <= p.clash
    {
      var b :| 0 <= b < |ps| && ps[b] == p;
      PickedPath(j, dayK, ps, b);
    }
  }

  /** The first paths of all days, if every day has one. */
  lemma FirstPicks(j: Job, dayK: nat) returns (ps: seq<SPath>)
    requires 1 <= dayK && ValidJob(j) && SafeJob(j) && Searchable(j, dayK) && JobOrdered(j)
    ensures PicksOf(j, dayK, ps)
    ensures JobKeepable(j) ==> forall b :: 0 <= b < |ps| ==> ps[b].clash == 0
  {
    var lists: seq<seq<SPath>> := DayLists(j.days, dayK);
    DaysBest(j, dayK);
    forall b: nat | b < |lists|
      ensures lists[b] != [] && (JobKeepable(j) ==> lists[b][0].clash == 0)
    {
      FirstOfDay(j, dayK, b);
    }
    ps := Firsts(lists);
    assert Picks(lists, [], ps);
  }

  lemma FirstOfDay(j: Job, dayK: nat, b: nat)
    requires 1 <= dayK && ValidJob(j) && SafeJob(j) && Searchable(j, dayK) && JobOrdered(j) && b < |j.days|
    ensures var list := DayLists(j.days, dayK)[b]; list != [] && (JobKeepable(j) ==> list[0].clash == 0)
  {
    var d, list := j.days[b], DayLists(j.days, dayK)[b];
    assert d in j.days;
    DaysBest(j, dayK);
    assert IsTopK(list, dayK, DayPaths(d));
    DayPathsOrdered(d);
    DayPathsKeepable(d);
    var p :| p in DayPaths(d);
    FrontBest(list, dayK, DayPaths(d), p);
    if JobKeepable(j) {
      var p' :| p' in DayPaths(d) && p'.clash == 0;
      FrontBest(list, dayK, DayPaths(d), p');
      BestPath(j, dayK, b, p');
    }
  }

  /** Within a day all paths have miss level 0, so the first one has the fewest clashes. */
  lemma BestPath(j: Job, dayK: nat, b: nat, p: SPath)
    requires 1 <= dayK && ValidJob(j) && SafeJob(j) && Searchable(j, dayK) && b < |j.days|
    requires var list := DayLists(j.days, dayK)[b];
      && j.days[b] in j.days && list != [] && p in DayPaths(j.days[b]) && p.clash == 0 && NoWorse(list[0], p)
    ensures DayLists(j.days, dayK)[b][0].clash == 0
  {
    var d, list := j.days[b], DayLists(j.days, dayK)[b];
    DaysBest(j, dayK);
    assert IsTopK(list, dayK, DayPaths(d));
    assert list[0] in list;
    DayPathsExact(d, list[0]);
    DayPathsExact(d, p);
    DayPathsKeepable(d);
  }

  /** A job offers a route exactly if every day has an admissible order. */
  lemma OffersExact(j: Job, dayK: nat)
    requires 1 <= dayK && ValidJob(j) && SafeJob(j) && Searchable(j, dayK)
    ensures (exists r :: r in Routes(j, dayK)) <==> JobOrdered(j)
  {
    if r :| r in Routes(j, dayK) {
      RoutePicks(j, dayK, r);
      var ps :| PicksOf(j, dayK, ps) && Join(j.root, ps) == r;
      forall d | d in j.days
        ensures exists o :: Admissible(d, o)
      {
        var b :| 0 <= b < |j.days| && j.days[b] == d;
        PickedPath(j, dayK, ps, b);
        DayPathsOrdered(d);
      }
    }
    if JobOrdered(j) {
      var ps := FirstPicks(j, dayK);
      RoutePicks(j, dayK, Join(j.root, ps));
    }
  }

  /** It offers a route without clashes exactly if every day has an order that can be kept. */
  lemma CleanExact(j: Job, dayK: nat)
    requires 1 <= dayK && ValidJob(j) && SafeJob(j) && Searchable(j, dayK)
    ensures (exists r :: r in Routes(j, dayK) && r.clash == 0) <==> JobKeepable(j)
  {
    if r :| r in Routes(j, dayK) && r.clash == 0 {
      RoutePicks(j, dayK, r);
      var ps :| PicksOf(j, dayK, ps) && Join(j.root, ps) == r;
      PickedCounted(j, dayK, ps);
      SumClashZero(ps);
      forall d | d in j.days
        ensures DayKeepable(d)
      {
        var b :| 0 <= b < |j.days| && j.days[b] == d;
        PickedPath(j, dayK, ps, b);
        DayPathsKeepable(d);
      }
    }
    if JobKeepable(j) {
      forall d | d in j.days
        ensures exists o :: Admissible(d, o)
      {
        var o :| KeptOrder(d, o);
      }
      var ps := FirstPicks(j, dayK);
      PickedCounted(j, dayK, ps);
      SumClashZero(ps);
      RoutePicks(j, dayK, Join(j.root, ps));
    }
  }

  lemma RouteLevel(j: Job, dayK: nat, r: SPath)
    requires 1 <= dayK && ValidJob(j) && SafeJob(j) && Searchable(j, dayK) && r in Routes(j, dayK)
    ensures r.missLevel == j.root.missLevel && 0 <= r.clash
  {
    RoutePicks(j, dayK, r);
    var ps :| PicksOf(j, dayK, ps) && Join(j.root, ps) == r;
    PickedCounted(j, dayK, ps);
    SumClashNat(ps);
  }

  // ----- The merged result

  /** Job i has hash n and an admissible order for every day. */
  ghost predicate Competes(jobs: seq<Job>, n: int, i: nat) {
    i < |jobs| && ValidJob(jobs[i]) && jobs[i].root.hashPointSet == n && JobOrdered(jobs[i])
  }

  /** No job that competes with it has a smaller miss level. */
  ghost predicate Leads(jobs: seq<Job>, n: int, i: nat) {
    Competes(jobs, n, i) &&
    forall k: nat :: Competes(jobs, n, k) ==> jobs[i].root.missLevel <= jobs[k].root.missLevel
  }

  ghost predicate Ready(jobs: seq<Job>, dayK: nat) {
    forall i :: 0 <= i < |jobs| ==> ValidJob(jobs[i]) && SafeJob(jobs[i]) && Searchable(jobs[i], dayK)
  }

  /** The routes of a point set are those of its jobs. */
  lemma OfferedBy(jobs: seq<Job>, dayK: nat, n: int, r: SPath)
    requires 1 <= dayK && Ready(jobs, dayK)
    ensures r in Offered(Batches(jobs, dayK), n) <==>
      exists i :: 0 <= i < |jobs| && jobs[i].root.hashPointSet == n && r in Routes(jobs[i], dayK)
  {
    var bs := Batches(jobs, dayK);
    OfferedExact(bs, n, r);
    if b :| b in bs && r in Routed(b, n) {
      var i :| 0 <= i < |bs| && bs[i] == b;
      assert bs[i] == BatchOf(jobs[i], dayK);
    }
    if i :| 0 <= i < |jobs| && jobs[i].root.hashPointSet == n && r in Routes(jobs[i], dayK) {
      assert bs[i] in bs && r in Routed(bs[i], n);
    }
  }

  lemma OfferedJob(jobs: seq<Job>, dayK: nat, n: int, r: SPath) returns (i: nat)
    requires 1 <= dayK && Ready(jobs, dayK) && r in Offered(Batches(jobs, dayK), n)
    ensures Competes(jobs, n, i) && r in Routes(jobs[i], dayK)
    ensures r.missLevel == jobs[i].root.missLevel && 0 <= r.clash
  {
    OfferedBy(jobs, dayK, n, r);
    i :| 0 <= i < |jobs| && jobs[i].root.hashPointSet == n && r in Routes(jobs[i], dayK);
    OffersExact(jobs[i], dayK);
    RouteLevel(jobs[i], dayK, r);
  }

  /** The best of a set is free of clashes exactly if some path of least miss level is. */
  lemma FrontClean(q: seq<SPath>, k: nat, s: set<SPath>)
    requires 1 <= k && IsTopK(q, k, s) && forall r :: r in s ==> 0 <= r.clash
    ensures (q != [] && q[0].clash == 0) <==>
      exists r :: r in s && r.clash == 0 && forall x :: x in s ==> r.missLevel <= x.missLevel
  {
    if q != [] && q[0].clash == 0 {
      assert q[0] in q;
      forall x | x in s
        ensures q[0].missLevel <= x.missLevel
      {
        FrontBest(q, k, s, x);
      }
    }
    if r :| r in s && r.clash == 0 && forall x :: x in s ==> r.missLevel <= x.missLevel {
      FrontBest(q, k, s, r);
      assert q[0] in q;
    }
  }

  /** A clean route of least miss level is one of a leading job with a day order to keep for every day. */
  lemma LeadingClean(jobs: seq<Job>, dayK: nat, n: int)
    requires 1 <= dayK && Ready(jobs, dayK)
    ensures var s := Offered(Batches(jobs, dayK), n);
      (exists r :: r in s && r.clash == 0 && forall x :: x in s ==> r.missLevel <= x.missLevel) <==>
      exists i: nat :: Leads(jobs, n, i) && JobKeepable(jobs[i])
  {
    var s := Offered(Batches(jobs, dayK), n);
    if r :| r in s && r.clash == 0 && forall x :: x in s ==> r.missLevel <= x.missLevel {
      var i := OfferedJob(jobs, dayK, n, r);
      CleanExact(jobs[i], dayK);
      forall k: nat | Competes(jobs, n, k)
        ensures jobs[i].root.missLevel <= jobs[k].root.missLevel
      {
        var x := CompetitorOffers(jobs, dayK, n, k);
      }
      assert Leads(jobs, n, i);
    }
    if i: nat :| Leads(jobs, n, i) && JobKeepable(jobs[i]) {
      CleanExact(jobs[i], dayK);
      var r :| r in Routes(jobs[i], dayK) && r.clash == 0;
      OfferedBy(jobs, dayK, n, r);
      RouteLevel(jobs[i], dayK, r);
      forall x | x in s
        ensures r.missLevel <= x.missLevel
      {
        var k := OfferedJob(jobs, dayK, n, x);
      }
    }
  }

  lemma CompetitorOffers(jobs: seq<Job>, dayK: nat, n: int, k: nat) returns (x: SPath)
    requires 1 <= dayK && Ready(jobs, dayK) && Competes(jobs, n, k)
    ensures x in Offered(Batches(jobs, dayK), n) && x.missLevel == jobs[k].root.missLevel
  {
    OffersExact(jobs[k], dayK);
    x :| x in Routes(jobs[k], dayK);
    OfferedBy(jobs, dayK, n, x);
    RouteLevel(jobs[k], dayK, x);
  }

  /** The whole search over safe places: whatever the schedule, the first route merged for a point set is
      free of clashes exactly if some job of least miss level for it has, for every day, an order that can be
      kept within opening hours, meals and stop time. */
  lemma FirstRouteKeepable(jobs: seq<Job>, threads: seq<seq<Batch>>, dayK: nat, k: nat, merged: Heaps, n: int)
    requires 1 <= k && 1 <= dayK && Ready(jobs, dayK)
    requires forall b :: b in Batches(jobs, dayK) <==> exists t :: 0 <= t < |threads| && b in threads[t]
    requires Merged(Pools(threads, k), k, merged)
    requires Clear(k, Offered(Batches(jobs, dayK), n))
    ensures (n in merged && merged[n].queue != [] && merged[n].queue[0].clash == 0) <==>
      exists i: nat :: Leads(jobs, n, i) && JobKeepable(jobs[i])
  {
    var all, s := Batches(jobs, dayK), Offered(Batches(jobs, dayK), n);
    ScheduleIrrelevant(all, threads, k, merged, n);
    LeadingClean(jobs, dayK, n);
    forall r | r in s
      ensures 0 <= r.clash
    {
      var i := OfferedJob(jobs, dayK, n, r);
    }
    if n in merged {
      FrontClean(merged[n].queue, k, s);
    } else {
      MergedAll(jobs, dayK, k, n);
    }
  }

  /** Where no heap is made, nothing is offered. */
  lemma MergedAll(jobs: seq<Job>, dayK: nat, k: nat, n: int)
    requires 1 <= k && 1 <= dayK && Ready(jobs, dayK) && Clear(k, Offered(Batches(jobs, dayK), n))
    requires n !in Run(Batches(jobs, dayK), k)
    ensures Offered(Batches(jobs, dayK), n) == {}
  {
    var all, s := Batches(jobs, dayK), Offered(Batches(jobs, dayK), n);
    var q :| IsTopK(q, k, s) && NoClash(q, s);
    RunGuards(all, k, n, q, s);
    forall r
      ensures r !in s
    {
      OfferedExact(all, n, r);
    }
  }
}
