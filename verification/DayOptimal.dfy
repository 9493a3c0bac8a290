/** What the day search finds: every admissible order exactly once, and the best of them. */
module DayOptimal {
  import opened Prelude
  import opened PathHeap
  import opened DayPlan
  import opened DaySearch
  import opened ClashTheory

  /** o completes path to a whole day: every place once, a leg to each, every restaurant accepted. */
  ghost predicate Completes(d: Day, path: seq<nat>, o: seq<nat>)
    requires WellFormed(d)
  {
    && path <= o && |path| < |o| == d.n && InRange(d, o)
    && o[d.n - 1] == d.n - 1
    && (forall k :: |path| <= k < d.n - 1 ==> 1 <= o[k] < d.n - 1 && o[k] !in o[..k])
    && (forall k :: |path| <= k < d.n && 0 < k ==> CanFollow(d, o[..k], o[k]))
  }

  /** An order of the day's places that the traffic table and the lunch-then-supper rule allow. */
  ghost predicate Admissible(d: Day, o: seq<nat>)
    requires WellFormed(d)
  {
    Completes(d, [0], o)
  }

  lemma {:induction false} LeavesExact(d: Day, path: seq<nat>, o: seq<nat>)
    requires WellFormed(d) && Partial(d, path)
    ensures o in Leaves(d, path) <==> Completes(d, path, o)
    decreases d.n - |path|, d.n + 1
  {
    if |path| + 1 < d.n {
      LeavesFromExact(d, path, 1, o);
    } else {
      if Completes(d, path, o) {
        assert o[..|path|] == path;
        assert o == path + [d.n - 1];
      }
      assert (path + [d.n - 1])[..|path|] == path;
    }
  }

  lemma {:induction false} LeavesFromExact(d: Day, path: seq<nat>, idx: nat, o: seq<nat>)
    requires WellFormed(d) && Partial(d, path) && |path| + 1 < d.n && 1 <= idx
    ensures o in LeavesFrom(d, path, idx) <==> Completes(d, path, o) && idx <= o[|path|]
    decreases d.n - |path|, if idx < d.n then d.n - idx else 0
  {
    if idx < d.n - 1 {
      LeavesFromExact(d, path, idx + 1, o);
      assert o in LeavesFrom(d, path, idx) <==> o in LeavesVia(d, path, idx) || o in LeavesFrom(d, path, idx + 1);
      var p := path + [idx];
      if idx !in path && CanFollow(d, path, idx) {
        LeavesExact(d, p, o);
        CompletesStep(d, path, idx, o);
      } else if Completes(d, path, o) {
        assert o[..|path|] == path;
      }
    }
  }

  lemma CompletesStep(d: Day, path: seq<nat>, idx: nat, o: seq<nat>)
    requires WellFormed(d) && Partial(d, path) && |path| + 1 < d.n && 1 <= idx < d.n - 1
    requires idx !in path && CanFollow(d, path, idx)
    ensures Completes(d, path + [idx], o) <==> Completes(d, path, o) && o[|path|] == idx
  {
    var p := path + [idx];
    if p <= o {
      assert o[..|path|] == path && o[|path|] == idx;
    }
    if path <= o && |path| < |o| && o[|path|] == idx {
      assert o[..|path|] == path;
      assert o[..|p|] == p;
    }
  }

  lemma {:induction false} LeavesDistinct(d: Day, path: seq<nat>)
    requires WellFormed(d) && Partial(d, path)
    ensures Distinct(Leaves(d, path))
    decreases d.n - |path|, d.n + 1
  {
    if |path| + 1 < d.n { LeavesFromDistinct(d, path, 1); }
  }

  lemma {:induction false} LeavesFromDistinct(d: Day, path: seq<nat>, idx: nat)
    requires WellFormed(d) && Partial(d, path) && |path| + 1 < d.n && 1 <= idx
    ensures Distinct(LeavesFrom(d, path, idx))
    decreases d.n - |path|, if idx < d.n then d.n - idx else 0
  {
    if idx < d.n - 1 {
      var a, b := LeavesVia(d, path, idx), LeavesFrom(d, path, idx + 1);
      LeavesFromDistinct(d, path, idx + 1);
      if idx !in path && CanFollow(d, path, idx) {
        LeavesDistinct(d, path + [idx]);
      }
      forall o | o in a
        ensures o !in b
      {
        LeavesExact(d, path + [idx], o);
        LeavesFromExact(d, path, idx + 1, o);
        assert o[|path|] == (path + [idx])[|path|];
      }
      DistinctConcat(a, b);
    }
  }

  /** The search completes every admissible order, exactly once, and nothing else. */
  lemma SearchVisitsAll(d: Day)
    requires WellFormed(d)
    ensures Partial(d, [0])
    ensures Distinct(Leaves(d, [0]))
    ensures forall o :: o in Leaves(d, [0]) <==> Admissible(d, o)
  {
    LeavesDistinct(d, [0]);
    forall o
      ensures o in Leaves(d, [0]) <==> Admissible(d, o)
    {
      LeavesExact(d, [0], o);
    }
  }

  lemma {:induction false} PathsOfMember(d: Day, leaves: seq<seq<nat>>, p: SPath)
    requires WellFormed(d)
    ensures p in PathsOf(d, leaves) <==> exists o :: o in leaves && PathOf(d, o) == Some(p)
    decreases |leaves|
  {
    if leaves != [] {
      PathsOfMember(d, leaves[1..], p);
      assert leaves == [leaves[0]] + leaves[1..];
    }
  }

  /** p is the day path of an admissible order. */
  ghost predicate IsDayPath(d: Day, p: SPath)
    requires WellFormed(d)
  {
    exists o :: Admissible(d, o) && PathOf(d, o) == Some(p)
  }

  /** The paths of all admissible orders, as a set. */
  ghost function DayPaths(d: Day): set<SPath>
    requires WellFormed(d)
  {
    SearchVisitsAll(d);
    Elems(PathsOf(d, Leaves(d, [0])))
  }

  lemma DayPathsExact(d: Day, p: SPath)
    requires WellFormed(d)
    ensures p in DayPaths(d) <==> IsDayPath(d, p)
  {
    SearchVisitsAll(d);
    PathsOfMember(d, Leaves(d, [0]), p);
    if IsDayPath(d, p) {
      var o :| Admissible(d, o) && PathOf(d, o) == Some(p);
      assert o in Leaves(d, [0]);
    }
  }

  /** The day search, pruned or not, returns the topK best paths over all admissible orders. */
  lemma DaySearchOptimal(d: Day, topK: nat)
    requires WellFormed(d) && 1 <= topK && Clear(topK, DayPaths(d))
    ensures Partial(d, [0])
    ensures IsTopK(Searched(d, Empty(topK), Leaves(d, [0])).queue, topK, DayPaths(d))
  {
    SearchVisitsAll(d);
    var ps := PathsOf(d, Leaves(d, [0]));
    OrderIrrelevant(topK, ps);
  }

  /** Every place of the day is timed. */
  ghost predicate AllTimed(d: Day)
    requires WellFormed(d)
  {
    forall i :: 1 <= i < d.n - 1 ==> 0 <= d.dur[i]
  }

  /** On a timed day CalClash never fails on an order all of whose legs exist. */
  lemma {:induction false} ClashDefined(d: Day, path: seq<nat>, i: nat, offset: int, need: bv8, firstL: int)
    requires WellFormed(d) && InRange(d, path) && Timed(d, path) && 1 <= i <= |path|
    requires forall k :: 1 <= k < |path| ==> d.leg(path[k - 1], path[k]).Some?
    ensures ClashFrom(d, path, i, offset, need, firstL).Clash?
    decreases |path| - i
  {
    if i < |path| - 1 {
      var arv := offset + d.leg(path[i - 1], path[i]).value.time;
      PickFirst(d, path[i], 0, arv, need);
      var r := PickWindow(d, path[i], 0, arv, need);
      if r.Taken? {
        ClashDefined(d, path, i + 1, r.begin + d.dur[path[i]], NeedAfter(d, path[i], r.j, need),
                     if LongFirstWait(d, i, path[i], r.begin - arv) then 1 else firstL);
      }
    }
  }

  lemma AdmissibleClash(d: Day, o: seq<nat>)
    requires WellFormed(d) && AllTimed(d) && Admissible(d, o)
    ensures Complete(d, o) && Timed(d, o) && ClashOf(d, o).Clash? && ClashOf(d, o).clash in {0, 1}
  {
    forall k | 1 <= k < |o|
      ensures d.leg(o[k - 1], o[k]).Some?
    {
      assert CanFollow(d, o[..k], o[k]);
    }
    ClashDefined(d, o, 1, d.start, d.restNeed, 0);
    FirstLRange(d, o, 1, d.start, d.restNeed, 0);
  }

  ghost function PlacesOf(d: Day): set<Place>
    requires WellFormed(d)
  {
    set i | 1 <= i < d.n - 1 :: PlaceAt(d, i)
  }

  lemma SoundTimed(d: Day)
    requires WellFormed(d) && forall p :: p in PlacesOf(d) ==> Sound(p)
    ensures AllTimed(d)
  {
    forall i | 1 <= i < d.n - 1
      ensures 0 <= d.dur[i]
    {
      assert PlaceAt(d, i) in PlacesOf(d);
    }
  }

  lemma AdmissibleExact(d: Day, o: seq<nat>)
    requires WellFormed(d) && Admissible(d, o)
    requires Safe(PlacesOf(d)) && forall p :: p in PlacesOf(d) ==> Sound(p)
    ensures Right(d, o)
  {
    forall i | 0 < i < |o| - 1
      ensures PlaceAt(d, o[i]) in PlacesOf(d)
    {
      assert 1 <= o[i] < d.n - 1;
    }
    ClashExact(PlacesOf(d), d, o);
  }

  /** If the day's places are safe, the best path the day search returns is free of clashes exactly when
      some admissible order can really be kept within opening hours, meals and stop time. */
  lemma BestDayKeepable(d: Day, topK: nat)
    requires WellFormed(d) && Safe(PlacesOf(d)) && forall p :: p in PlacesOf(d) ==> Sound(p)
    requires 1 <= topK && Clear(topK, DayPaths(d))
    ensures Partial(d, [0])
    ensures var q := Searched(d, Empty(topK), Leaves(d, [0])).queue;
      (q != [] && q[0].clash == 0) <==> exists o :: Admissible(d, o) && Complete(d, o) && Keepable(d, o)
  {
    SoundTimed(d);
    DaySearchOptimal(d, topK);
    var q := Searched(d, Empty(topK), Leaves(d, [0])).queue;
    if q != [] && q[0].clash == 0 {
      DayPathsExact(d, q[0]);
      var o :| Admissible(d, o) && PathOf(d, o) == Some(q[0]);
      AdmissibleClash(d, o);
      AdmissibleExact(d, o);
    }
    if o :| Admissible(d, o) && Complete(d, o) && Keepable(d, o) {
      AdmissibleClash(d, o);
      AdmissibleExact(d, o);
      var p := PathOf(d, o).value;
      DayPathsExact(d, p);
      BestIsFirst(d, q, topK, p);
    }
  }

  lemma BestIsFirst(d: Day, q: seq<SPath>, topK: nat, p: SPath)
    requires WellFormed(d) && AllTimed(d) && 1 <= topK
    requires IsTopK(q, topK, DayPaths(d)) && p in DayPaths(d) && p.clash == 0
    ensures q != [] && q[0].clash == 0
  {
    assert q != [];
    DayPathsExact(d, q[0]);
    var o :| Admissible(d, o) && PathOf(d, o) == Some(q[0]);
    AdmissibleClash(d, o);
    DayPathsExact(d, p);
    var o' :| Admissible(d, o') && PathOf(d, o') == Some(p);
    if p in q {
      HeadBest(q, p);
    } else {
      assert Better(q[0], p);
    }
  }
}
