/** What a route of the merged result is, said from the tables of its days: whose visits it makes, in which order,
    and how its totals come about (DFSWorker::JoinDayPath, DFSearch::MergeDFS). */
module RouteMeaning {
  import opened Prelude
  import opened PathHeap
  import opened DayOptimal
  import opened DayMeaning
  import opened JoinDays
  import opened MergeHeaps
  import opened MergeTheory

  function Lengths(ps: seq<SPath>): seq<int> { seq(|ps|, b requires 0 <= b < |ps| => |ps[b].visits|) }
  function Dists(ps: seq<SPath>): seq<int> { seq(|ps|, b requires 0 <= b < |ps| => ps[b].dist) }
  function Clashes(ps: seq<SPath>): seq<int> { seq(|ps|, b requires 0 <= b < |ps| => ps[b].clash) }
  function Marks(ps: seq<SPath>): seq<int> { seq(|ps|, b requires 0 <= b < |ps| => ps[b].firstL) }
  function Scores(ps: seq<SPath>): seq<int> { seq(|ps|, b requires 0 <= b < |ps| => ps[b].score) }

  /** v has the visits of all paths of ps, one path after the other. */
  ghost predicate InTurn(ps: seq<SPath>, v: seq<Visit>) {
    && |v| == SumOf(Lengths(ps))
    && forall b, i :: 0 <= b < |ps| && 0 <= i < |ps[b].visits| ==> VisitAt(ps, v, b, i)
  }

  /** The i-th visit of path b stands behind those of the paths before it. */
  ghost predicate VisitAt(ps: seq<SPath>, v: seq<Visit>, b: nat, i: nat)
    requires b < |ps| && i < |ps[b].visits|
  {
    var k := SumOf(Lengths(ps)[..b]) + i;
    0 <= k < |v| && v[k] == ps[b].visits[i]
  }

  /** The route p visits what the paths of ps visit, in turn, and adds up their totals; the rest is the root's. */
  ghost predicate RouteFor(r: Root, ps: seq<SPath>, p: SPath) {
    && InTurn(ps, p.visits)
    && p.dist == SumOf(Dists(ps)) && p.clash == SumOf(Clashes(ps))
    && p.firstL == SumOf(Marks(ps)) && p.score == SumOf(Scores(ps))
    && p.hot == r.hot && p.missLevel == r.missLevel && p.hashFrom == r.hash && p.hash == r.routeHash(p.visits)
  }

  lemma {:induction false} SumsMean(ps: seq<SPath>)
    ensures SumDist(ps) == SumOf(Dists(ps)) && SumClash(ps) == SumOf(Clashes(ps))
    ensures SumFirstL(ps) == SumOf(Marks(ps)) && SumScore(ps) == SumOf(Scores(ps))
    ensures |AllVisits(ps)| == SumOf(Lengths(ps))
  {
    if ps != [] {
      SumsMean(ps[1..]);
      assert Dists(ps)[1..] == Dists(ps[1..]) && Clashes(ps)[1..] == Clashes(ps[1..]);
      assert Marks(ps)[1..] == Marks(ps[1..]) && Scores(ps)[1..] == Scores(ps[1..]);
      assert Lengths(ps)[1..] == Lengths(ps[1..]);
    }
  }

  lemma {:induction false} LengthsNat(ps: seq<SPath>)
    ensures 0 <= SumOf(Lengths(ps))
  {
    if ps != [] {
      LengthsNat(ps[1..]);
      assert Lengths(ps)[1..] == Lengths(ps[1..]);
    }
  }

  /** Where the first path's visits end the others' begin. */
  lemma InTurnStep(ps: seq<SPath>, v: seq<Visit>)
    requires ps != []
    ensures InTurn(ps, v) <==>
      |ps[0].visits| <= |v| && v[..|ps[0].visits|] == ps[0].visits && InTurn(ps[1..], v[|ps[0].visits|..])
  {
    var n, rest := |ps[0].visits|, ps[1..];
    assert Lengths(ps)[1..] == Lengths(rest);
    LengthsNat(rest);
    assert SumOf(Lengths(ps)) == n + SumOf(Lengths(rest));
    if n <= |v| {
      forall b, i | 0 <= b < |rest| && 0 <= i < |rest[b].visits|
        ensures VisitAt(ps, v, b + 1, i) <==> VisitAt(rest, v[n..], b, i)
      {
        VisitLater(ps, v, b, i);
      }
      if InTurn(ps, v) {
        forall i | 0 <= i < n
          ensures v[i] == ps[0].visits[i]
        {
          assert VisitAt(ps, v, 0, i);
        }
        forall b, i | 0 <= b < |rest| && 0 <= i < |rest[b].visits|
          ensures VisitAt(rest, v[n..], b, i)
        {
          var c := b + 1;
          assert VisitAt(ps, v, c, i);
        }
      }
      if v[..n] == ps[0].visits && InTurn(rest, v[n..]) {
        forall b, i | 0 <= b < |ps| && 0 <= i < |ps[b].visits|
          ensures VisitAt(ps, v, b, i)
        {
          if b == 0 {
            assert v[..n][i] == v[i];
          } else {
            assert VisitAt(rest, v[n..], b - 1, i);
          }
        }
      }
    }
  }

  lemma VisitLater(ps: seq<SPath>, v: seq<Visit>, b: nat, i: nat)
    requires ps != [] && |ps[0].visits| <= |v| && b < |ps| - 1 && i < |ps[b + 1].visits|
    ensures VisitAt(ps, v, b + 1, i) <==> VisitAt(ps[1..], v[|ps[0].visits|..], b, i)
  {
    var n, rest := |ps[0].visits|, ps[1..];
    assert Lengths(ps)[..b + 1][1..] == Lengths(rest)[..b];
    LengthsNat(rest[..b]);
    assert Lengths(rest)[..b] == Lengths(rest[..b]);
  }

  lemma {:induction false} InTurnExact(ps: seq<SPath>, v: seq<Visit>)
    ensures InTurn(ps, v) <==> v == AllVisits(ps)
    decreases |ps|
  {
    if ps != [] {
      var n := |ps[0].visits|;
      InTurnStep(ps, v);
      if n <= |v| {
        InTurnExact(ps[1..], v[n..]);
        assert v == v[..n] + v[n..];
      }
    }
  }

  lemma JoinMeans(r: Root, ps: seq<SPath>, p: SPath)
    ensures RouteFor(r, ps, p) <==> p == Join(r, ps)
  {
    SumsMean(ps);
    InTurnExact(ps, p.visits);
  }

  /** One path of each day. */
  ghost predicate OneEach(days: seq<seq<SPath>>, ps: seq<SPath>) {
    |ps| == |days| && forall b :: 0 <= b < |ps| ==> ps[b] in days[b]
  }

  /** The joined routes are exactly those of one path of each day. */
  lemma RoutesMean(r: Root, days: seq<seq<SPath>>, p: SPath)
    ensures p in Joined(r, days, []) <==> exists ps :: OneEach(days, ps) && RouteFor(r, ps, p)
  {
    JoinedExact(r, days, [], p);
    if ps :| Picks(days, [], ps) && Join(r, ps) == p {
      JoinMeans(r, ps, p);
      assert OneEach(days, ps);
    }
    if ps :| OneEach(days, ps) && RouteFor(r, ps, p) {
      JoinMeans(r, ps, p);
      assert Picks(days, [], ps);
    }
  }

  // ----- Routes of the merged result

  /** A heap of a thread holds only what its jobs offered to it. */
  lemma {:induction false} RunOnly(bs: seq<Batch>, k: nat, n: int, p: SPath)
    requires 1 <= k && n in Run(bs, k) && p in Run(bs, k)[n].queue
    ensures p in Offered(bs, n)
    decreases |bs|
  {
    var init, last := bs[..|bs| - 1], bs[|bs| - 1];
    if last.hash == n {
      OfferedOnly(HeapFor(Run(init, k), k, n), last.routes, p);
      if p !in last.routes { RunOnly(init, k, n, p); }
    } else {
      RunOnly(init, k, n, p);
    }
  }

  lemma MergedOnly(threads: seq<seq<Batch>>, k: nat, merged: Heaps, n: int, p: SPath) returns (t: nat)
    requires 1 <= k && Merged(Pools(threads, k), k, merged) && n in merged && p in merged[n].queue
    ensures t < |threads| && p in Offered(threads[t], n)
  {
    var pools := Pools(threads, k);
    var ps :| Fed(merged[n], k, Queued(pools, n), ps);
    OfferedOnly(Empty(k), ps, p);
    assert p in Elems(ps);
    QueuedExact(pools, n, p);
    t :| 0 <= t < |pools| && p in QueueOf(pools[t], n);
    RunOnly(threads[t], k, n, p);
  }

  /** p is a route of this job: one whole day for each of its days. */
  ghost predicate RouteOfJob(j: Job, ps: seq<SPath>, os: seq<seq<nat>>, p: SPath)
    requires ValidJob(j)
  {
    && |ps| == |os| == |j.days| && RouteFor(j.root, ps, p)
    && forall b :: 0 <= b < |os| ==> DayAt(j, b, os[b], ps[b])
  }

  ghost predicate DayAt(j: Job, b: nat, o: seq<nat>, p: SPath)
    requires ValidJob(j) && b < |j.days|
  {
    assert j.days[b] in j.days;
    PathFor(j.days[b], o, p)
  }

  lemma JobRoutes(j: Job, dayK: nat, p: SPath) returns (ps: seq<SPath>, os: seq<seq<nat>>)
    requires 1 <= dayK && ValidJob(j) && p in Routes(j, dayK)
    ensures RouteOfJob(j, ps, os, p)
  {
    var lists := DayLists(j.days, dayK);
    RoutesMean(j.root, lists, p);
    ps :| OneEach(lists, ps) && RouteFor(j.root, ps, p);
    os := OrdersFor(j, dayK, ps, |ps|);
  }

  lemma {:induction false} OrdersFor(j: Job, dayK: nat, ps: seq<SPath>, n: nat) returns (os: seq<seq<nat>>)
    requires 1 <= dayK && ValidJob(j) && OneEach(DayLists(j.days, dayK), ps) && n <= |ps|
    ensures |os| == n && forall b :: 0 <= b < n ==> DayAt(j, b, os[b], ps[b])
  {
    if n == 0 {
      os := [];
    } else {
      var b := n - 1;
      var d := j.days[b];
      os := OrdersFor(j, dayK, ps, b);
      DayListsAt(j.days, dayK, b);
      assert ps[b] in DayList(d, dayK);
      SearchVisitsAll(d);
      SearchDescribes(d, dayK, ps[b]);
      var o :| PathFor(d, o, ps[b]);
      os := os + [o];
    }
  }

  /** Every route merged for a point set comes from a job with that point set: it visits, day after day, the places
      of one whole day of each of the job's days, with the totals of their legs. */
  lemma MergedMeans(jobs: seq<Job>, threads: seq<seq<Batch>>, dayK: nat, k: nat, merged: Heaps, n: int, p: SPath)
    returns (i: nat, ps: seq<SPath>, os: seq<seq<nat>>)
    requires 1 <= k && 1 <= dayK && forall i :: 0 <= i < |jobs| ==> ValidJob(jobs[i])
    requires forall b :: b in Batches(jobs, dayK) <==> exists t :: 0 <= t < |threads| && b in threads[t]
    requires Merged(Pools(threads, k), k, merged) && n in merged && p in merged[n].queue
    ensures i < |jobs| && jobs[i].root.hashPointSet == n && RouteOfJob(jobs[i], ps, os, p)
  {
    var t := MergedOnly(threads, k, merged, n, p);
    OfferedExact(threads[t], n, p);
    var b :| b in threads[t] && p in Routed(b, n);
    var bs := Batches(jobs, dayK);
    assert b in bs;
    i :| 0 <= i < |bs| && bs[i] == b;
    ps, os := JobRoutes(jobs[i], dayK, p);
  }
}
