/** Joining the day paths of one root path into whole routes (DFSWorker). */
module JoinDays {
  import opened Prelude
  import opened PathHeap

  /** The root path ("rich path") a worker refines: how it is scored and how routes are hashed. */
  datatype Root = Root(hot: int, missLevel: nat, hash: int, hashPointSet: int, routeHash: seq<Visit> -> int)

  function SumDist(ps: seq<SPath>): int { if ps == [] then 0 else ps[0].dist + SumDist(ps[1..]) }
  function SumClash(ps: seq<SPath>): int { if ps == [] then 0 else ps[0].clash + SumClash(ps[1..]) }
  function SumFirstL(ps: seq<SPath>): int { if ps == [] then 0 else ps[0].firstL + SumFirstL(ps[1..]) }
  function SumScore(ps: seq<SPath>): int { if ps == [] then 0 else ps[0].score + SumScore(ps[1..]) }
  function AllVisits(ps: seq<SPath>): seq<Visit> { if ps == [] then [] else ps[0].visits + AllVisits(ps[1..]) }

  /** The route made of one path per day. */
  function Join(r: Root, ps: seq<SPath>): SPath {
    var visits := AllVisits(ps);
    SPath(visits, r.hot, SumDist(ps), SumClash(ps), SumFirstL(ps), SumScore(ps), r.missLevel, r.routeHash(visits),
        r.hash)
  }

  /** The routes over all ways to extend `chosen` by one path per remaining day, in loop order. */
  function Joined(r: Root, days: seq<seq<SPath>>, chosen: seq<SPath>): seq<SPath>
    requires |chosen| <= |days|
    decreases |days| - |chosen|, 0, 0
  {
    if |chosen| == |days| then [Join(r, chosen)] else JoinedFrom(r, days, chosen, 0)
  }

  function JoinedFrom(r: Root, days: seq<seq<SPath>>, chosen: seq<SPath>, i: nat): seq<SPath>
    requires |chosen| < |days| && i <= |days[|chosen|]|
    decreases |days| - |chosen| - 1, 1, |days[|chosen|]| - i
  {
    if i == |days[|chosen|]| then []
    else Joined(r, days, chosen + [days[|chosen|][i]]) + JoinedFrom(r, days, chosen, i + 1)
  }

  /** No day path has a negative clash count. */
  ghost predicate ClashesCounted(ps: seq<SPath>) {
    forall p :: p in ps ==> 0 <= p.clash
  }

  lemma {:induction false} SumClashNat(ps: seq<SPath>)
    requires ClashesCounted(ps)
    ensures 0 <= SumClash(ps)
  {
    if ps != [] { SumClashNat(ps[1..]); }
  }

  lemma {:induction false} SumSnoc(ps: seq<SPath>, p: SPath)
    ensures SumDist(ps + [p]) == SumDist(ps) + p.dist
    ensures SumClash(ps + [p]) == SumClash(ps) + p.clash
    ensures SumFirstL(ps + [p]) == SumFirstL(ps) + p.firstL
    ensures SumScore(ps + [p]) == SumScore(ps) + p.score
    ensures AllVisits(ps + [p]) == AllVisits(ps) + p.visits
  {
    if ps != [] {
      assert (ps + [p])[1..] == ps[1..] + [p];
      SumSnoc(ps[1..], p);
    } else {
      assert [p][1..] == [];
    }
  }

  class DFSWorker {
    const root: Root
    const noPrune: bool  // dwDbg != 0
    const heap: SPathHeap
    var tmpList: seq<SPath>

    constructor (r: Root, h: SPathHeap, noPrune: bool)
      ensures root == r && heap == h && this.noPrune == noPrune && tmpList == []
    {
      root, heap, this.noPrune, tmpList := r, h, noPrune, [];
    }

    method JoinDayPath(daySPList: seq<seq<SPath>>)
      requires PathHeap.Valid(heap.State()) && |tmpList| <= |daySPList|
      requires ClashesCounted(tmpList) && forall day :: day in daySPList ==> ClashesCounted(day)
      modifies this, heap
      ensures PathHeap.Valid(heap.State()) && tmpList == old(tmpList)
      ensures heap.State() == OfferAll(old(heap.State()), Joined(root, daySPList, tmpList))
      decreases |daySPList| - |tmpList|
    {
      var blockIdx := |tmpList|;
      if blockIdx >= |daySPList| {
        JoinAll();
        return;
      }
      var sPathList := daySPList[blockIdx];
      assert ClashesCounted(sPathList);
      var i := 0;
      while i < |sPathList|
        invariant 0 <= i <= |sPathList|
        invariant PathHeap.Valid(heap.State()) && tmpList == old(tmpList)
        invariant OfferAll(heap.State(), JoinedFrom(root, daySPList, tmpList, i))
               == OfferAll(old(heap.State()), Joined(root, daySPList, tmpList))
      {
        OfferAllConcat(heap.State(), Joined(root, daySPList, tmpList + [sPathList[i]]),
                       JoinedFrom(root, daySPList, tmpList, i + 1));
        tmpList := tmpList + [sPathList[i]];
        JoinDayPath(daySPList);
        tmpList := tmpList[..|tmpList| - 1];
        i := i + 1;
      }
    }

    /** The end of the recursion: one path per day is chosen. */
    method JoinAll()
      requires PathHeap.Valid(heap.State()) && ClashesCounted(tmpList)
      modifies heap
      ensures PathHeap.Valid(heap.State())
      ensures heap.State() == OfferAll(old(heap.State()), [Join(root, tmpList)])
    {
      ghost var h := heap.State();
      var totDist, totClash, totFirstL, totScore, visits := 0, 0, 0, 0, [];
      for i := 0 to |tmpList|
        invariant totDist == SumDist(tmpList[..i]) && totClash == SumClash(tmpList[..i])
        invariant totFirstL == SumFirstL(tmpList[..i]) && totScore == SumScore(tmpList[..i])
        invariant visits == AllVisits(tmpList[..i])
        invariant heap.State() == h
      {
        var daySP := tmpList[i];
        totDist := totDist + daySP.dist;
        totClash := totClash + daySP.clash;
        totFirstL := totFirstL + daySP.firstL;
        totScore := totScore + daySP.score;
        visits := visits + daySP.visits;
        SumSnoc(tmpList[..i], daySP);
        assert tmpList[..i + 1] == tmpList[..i] + [daySP];
      }
      assert tmpList[..|tmpList|] == tmpList;
      ghost var route := Join(root, tmpList);
      assert OfferAll(Offer(h, route), [route][1..]) == Offer(h, route);
      if !noPrune {
        var ok := heap.Accepts(totScore, 0, 0);
        if !ok {
          SumClashNat(tmpList);
          CanPushSound(h, totScore, 0, 0, route);
          return;
        }
      }
      var joinPath := SPath(visits, root.hot, totDist, totClash, totFirstL, totScore, root.missLevel,
                            root.routeHash(visits), root.hash);
      var popped := heap.Push(joinPath);
    }
  }

  // ----- The best route

  /** One path per day, each from the set that day offers. */
  ghost predicate Chooses(sets: seq<set<SPath>>, ps: seq<SPath>) {
    |ps| <= |sets| && forall i :: 0 <= i < |ps| ==> ps[i] in sets[i]
  }

  /** Each day's list holds that day's k best paths. */
  ghost predicate BestPerDay(days: seq<seq<SPath>>, k: nat, sets: seq<set<SPath>>) {
    && |days| == |sets|
    && forall i :: 0 <= i < |days| ==> IsTopK(days[i], k, sets[i])
  }

  ghost predicate SameMiss(sets: seq<set<SPath>>) {
    forall i, p :: 0 <= i < |sets| && p in sets[i] ==> p.missLevel == 0
  }

  /** (clash, score) of a is at least as good as that of b: fewer clashes, then a higher score. */
  ghost predicate LexBest(clashA: int, scoreA: int, clashB: int, scoreB: int) {
    clashA < clashB || (clashA == clashB && scoreA >= scoreB)
  }

  ghost function Firsts(days: seq<seq<SPath>>): seq<SPath>
    requires forall day :: day in days ==> day != []
  {
    seq(|days|, i requires 0 <= i < |days| => assert days[i] in days; days[i][0])
  }

  lemma {:induction false} FirstsBest(a: seq<SPath>, b: seq<SPath>)
    requires |a| == |b|
    requires forall i :: 0 <= i < |a| ==> LexBest(a[i].clash, a[i].score, b[i].clash, b[i].score)
    ensures LexBest(SumClash(a), SumScore(a), SumClash(b), SumScore(b))
  {
    if a != [] {
      FirstsBest(a[1..], b[1..]);
    }
  }

  /** Joining reaches exactly the ways to choose one path per day from the lists. */
  lemma {:induction false} JoinedExact(r: Root, days: seq<seq<SPath>>, chosen: seq<SPath>, p: SPath)
    requires |chosen| <= |days|
    ensures p in Joined(r, days, chosen) <==> exists ps :: Picks(days, chosen, ps) && Join(r, ps) == p
    decreases |days| - |chosen|, 0, 0
  {
    if |chosen| == |days| {
      assert Picks(days, chosen, chosen);
      assert forall ps :: Picks(days, chosen, ps) ==> ps == chosen;
    } else {
      JoinedFromExact(r, days, chosen, 0, p);
      if ps :| Picks(days, chosen, ps) && Join(r, ps) == p {
        assert ps[|chosen|] in days[|chosen|][0..];
      }
    }
  }

  ghost predicate Picks(days: seq<seq<SPath>>, chosen: seq<SPath>, ps: seq<SPath>) {
    chosen <= ps && |ps| == |days| && forall i :: |chosen| <= i < |ps| ==> ps[i] in days[i]
  }

  lemma {:induction false} JoinedFromExact(r: Root, days: seq<seq<SPath>>, chosen: seq<SPath>, i: nat, p: SPath)
    requires |chosen| < |days| && i <= |days[|chosen|]|
    ensures p in JoinedFrom(r, days, chosen, i) <==>
      exists ps :: Picks(days, chosen, ps) && ps[|chosen|] in days[|chosen|][i..] && Join(r, ps) == p
    decreases |days| - |chosen| - 1, 1, |days[|chosen|]| - i
  {
    var day := days[|chosen|];
    if i < |day| {
      var next := chosen + [day[i]];
      assert day[i..] == [day[i]] + day[i + 1..];
      JoinedExact(r, days, next, p);
      JoinedFromExact(r, days, chosen, i + 1, p);
      assert forall ps :: Picks(days, next, ps) <==> Picks(days, chosen, ps) && ps[|chosen|] == day[i] by {
        forall ps
          ensures Picks(days, next, ps) <==> Picks(days, chosen, ps) && ps[|chosen|] == day[i]
        {
          if next <= ps { assert ps[..|chosen|] == chosen; }
          if chosen <= ps && |ps| > |chosen| && ps[|chosen|] == day[i] { assert ps[..|next|] == next; }
        }
      }
    }
  }

  /** The route of each day's best path is offered, and no choice of one admissible path per day,
      kept by the day search or not, has fewer clashes or the same clashes and a better score. */
  lemma JoinOptimal(r: Root, days: seq<seq<SPath>>, k: nat, sets: seq<set<SPath>>, ps: seq<SPath>)
    requires BestPerDay(days, k, sets) && 1 <= k && SameMiss(sets)
    requires |ps| == |sets| && Chooses(sets, ps)
    ensures forall day :: day in days ==> day != []
    ensures Join(r, Firsts(days)) in Joined(r, days, [])
    ensures var best, other := Join(r, Firsts(days)), Join(r, ps);
      LexBest(best.clash, best.score, other.clash, other.score)
  {
    forall i | 0 <= i < |days|
      ensures days[i] != [] && LexBest(days[i][0].clash, days[i][0].score, ps[i].clash, ps[i].score)
    {
      assert ps[i] in sets[i];
      assert days[i] != [];
      assert days[i][0] in sets[i];
      if ps[i] in days[i] {
        HeadBest(days[i], ps[i]);
      } else {
        assert Better(days[i][0], ps[i]);
      }
    }
    var firsts := Firsts(days);
    FirstsBest(firsts, ps);
    assert Picks(days, [], firsts);
    JoinedExact(r, days, [], Join(r, firsts));
  }

  lemma NoPick(days: seq<seq<SPath>>, b: nat, ps: seq<SPath>)
    requires b < |days| && days[b] == []
    ensures !Picks(days, [], ps)
  {
  }

  /** A day without any path leaves nothing to join. */
  lemma JoinNothing(r: Root, days: seq<seq<SPath>>)
    requires [] in days
    ensures Joined(r, days, []) == []
  {
    var b :| 0 <= b < |days| && days[b] == [];
    forall p
      ensures p !in Joined(r, days, [])
    {
      JoinedExact(r, days, [], p);
      forall ps
        ensures !Picks(days, [], ps)
      {
        NoPick(days, b, ps);
      }
    }
    HeadMember(Joined(r, days, []));
  }

  /** With one path kept per day the join offers that single best route, or nothing at all. */
  lemma JoinSingle(r: Root, days: seq<seq<SPath>>)
    requires forall day :: day in days ==> |day| == 1
    ensures Joined(r, days, []) == [Join(r, Firsts(days))]
  {
    JoinSingleFrom(r, days, []);
    assert [] + Firsts(days)[0..] == Firsts(days);
  }

  lemma {:induction false} JoinSingleFrom(r: Root, days: seq<seq<SPath>>, chosen: seq<SPath>)
    requires forall day :: day in days ==> |day| == 1
    requires |chosen| <= |days|
    ensures Joined(r, days, chosen) == [Join(r, chosen + Firsts(days)[|chosen|..])]
    decreases |days| - |chosen|
  {
    var firsts := Firsts(days);
    if |chosen| == |days| {
      assert chosen + firsts[|chosen|..] == chosen;
    } else {
      var next := chosen + [days[|chosen|][0]];
      var day := days[|chosen|];
      assert day in days;
      JoinSingleFrom(r, days, next);
      assert JoinedFrom(r, days, chosen, 0) == Joined(r, days, next) + JoinedFrom(r, days, chosen, 1);
      assert JoinedFrom(r, days, chosen, 1) == [];
      assert next + firsts[|next|..] == chosen + firsts[|chosen|..];
    }
  }
}
