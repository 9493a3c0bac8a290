/** What an order of a day and the path made of it are, said from the day's tables: which orders the search
    admits, which places a kept path visits, and how it is scored. */
module DayMeaning {
  import opened Prelude
  import opened PathHeap
  import opened DayPlan
  import opened DaySearch
  import opened DayOptimal

  // ----- Paths

  ghost predicate Linked(d: Day, o: seq<nat>) {
    forall i :: 0 < i < |o| ==> d.leg(o[i - 1], o[i]).Some?
  }

  /** The lengths of the legs of o, those on foot, and a 1 for each that is not. */
  function Dists(d: Day, o: seq<nat>): seq<int>
    requires Linked(d, o) && o != []
  {
    seq(|o| - 1, i requires 0 <= i < |o| - 1 => Hop(d, o, i).dist)
  }

  function Walks(d: Day, o: seq<nat>): seq<int>
    requires Linked(d, o) && o != []
  {
    seq(|o| - 1, i requires 0 <= i < |o| - 1 => if Hop(d, o, i).walking then Hop(d, o, i).dist else 0)
  }

  function Rides(d: Day, o: seq<nat>): seq<int>
    requires Linked(d, o) && o != []
  {
    seq(|o| - 1, i requires 0 <= i < |o| - 1 => if Hop(d, o, i).walking then 0 else 1)
  }

  function Hop(d: Day, o: seq<nat>, i: nat): Leg
    requires Linked(d, o) && i + 1 < |o|
  {
    assert d.leg(o[i + 1 - 1], o[i + 1]).Some?;
    d.leg(o[i], o[i + 1]).value
  }

  /** The totals the search keeps along o are the sums over its legs. */
  lemma {:induction false} TotalMeans(d: Day, o: seq<nat>)
    requires o != [] && Linked(d, o)
    ensures Total(d, o).dist == SumOf(Dists(d, o))
    ensures Total(d, o).nonWalk == SumOf(Rides(d, o)) && Total(d, o).walk == SumOf(Walks(d, o))
  {
    if |o| == 1 {
      assert Dists(d, o) == [] && Rides(d, o) == [] && Walks(d, o) == [];
    } else {
      var init, k := o[..|o| - 1], |o| - 2;
      var hop := Hop(d, o, k);
      TotalMeans(d, init);
      HopsSnoc(d, o);
      SumOfSnoc(Dists(d, init), hop.dist);
      SumOfSnoc(Rides(d, init), if hop.walking then 0 else 1);
      SumOfSnoc(Walks(d, init), if hop.walking then hop.dist else 0);
    }
  }

  lemma HopsSnoc(d: Day, o: seq<nat>)
    requires |o| > 1 && Linked(d, o)
    ensures var init, hop := o[..|o| - 1], Hop(d, o, |o| - 2);
      && Linked(d, init)
      && Dists(d, o) == Dists(d, init) + [hop.dist]
      && Rides(d, o) == Rides(d, init) + [if hop.walking then 0 else 1]
      && Walks(d, o) == Walks(d, init) + [if hop.walking then hop.dist else 0]
  {
    assert forall i :: 0 <= i < |o| - 2 ==> Hop(d, o[..|o| - 1], i) == Hop(d, o, i);
  }

  function Excess(x: int, limit: int): int { if x > limit then x - limit else 0 }

  /** p visits the places of o between its ends, in that order, is as long as its legs are, and scores minus
      its length, a penalty for every leg but one that is not on foot, the walking beyond a day's limit, and a
      penalty for a long wait for lunch. */
  ghost predicate Describes(d: Day, o: seq<nat>, p: SPath)
    requires |d.vPos| == d.n && InRange(d, o) && 2 <= |o| && Linked(d, o)
  {
    && |p.visits| == |o| - 2
    && (forall i :: 0 <= i < |o| - 2 ==> p.visits[i].bPos == d.block && p.visits[i].vPos == d.vPos[o[i + 1]])
    && p.dist == SumOf(Dists(d, o))
    && p.score == -(p.dist + Excess(SumOf(Rides(d, o)), 1) * NON_WALK_PENALTY + Excess(SumOf(Walks(d, o)), MAX_WALK_DAY)
                    + p.firstL * FIRST_LUNCH_PENALTY)
    && p.hash == d.hash(p.visits) && p.missLevel == 0 && p.hot == 0 && p.hashFrom == 0
  }

  lemma PathDescribes(d: Day, o: seq<nat>, p: SPath)
    requires WellFormed(d) && Complete(d, o) && Linked(d, o) && PathOf(d, o) == Some(p)
    ensures Describes(d, o, p)
  {
    TotalMeans(d, o);
  }

  // ----- The long wait before lunch

  /** A visit of idx by someone who arrives at arv and still needs these meals fits into window j. */
  ghost predicate FitsIn(d: Day, idx: nat, j: nat, arv: int, need: bv8)
    requires WellFormed(d) && idx < d.n
  {
    && j < |d.windows[idx]| && d.windows[idx][j].Some?
    && (d.vType[idx] & RESTAURANT != 0 ==> (j == 0 ==> need & LUNCH != 0) && (j == 1 ==> need & SUPPER != 0))
    && var w := d.windows[idx][j].value;
       (if arv < w.open then w.open else arv) + d.dur[idx] <= w.close
  }

  /** j is the first window from i on that the visit fits into. */
  ghost predicate FirstFit(d: Day, idx: nat, i: nat, j: nat, arv: int, need: bv8)
    requires WellFormed(d) && idx < d.n
  {
    i <= j && FitsIn(d, idx, j, arv, need) && forall k: nat :: i <= k < j ==> !FitsIn(d, idx, k, arv, need)
  }

  function Later(a: int, b: int): int { if a < b then b else a }

  /** What PickWindow takes is the first window that fits, unless the visit would end after the stop time. */
  lemma {:induction false} PickMeans(d: Day, idx: nat, i: nat, j: nat, arv: int, need: bv8)
    requires WellFormed(d) && idx < d.n && i <= |d.windows[idx]| && d.dur[idx] != -1
    requires FirstFit(d, idx, i, j, arv, need)
    ensures var begin := Later(arv, d.windows[idx][j].value.open);
      PickWindow(d, idx, i, arv, need) == if begin + d.dur[idx] <= d.stop then Taken(j, begin) else NoWindow
    decreases j - i
  {
    if i < j {
      assert !FitsIn(d, idx, i, arv, need);
      PickMeans(d, idx, i + 1, j, arv, need);
    }
  }

  lemma {:induction false} PickNone(d: Day, idx: nat, i: nat, arv: int, need: bv8)
    requires WellFormed(d) && idx < d.n && i <= |d.windows[idx]| && d.dur[idx] != -1
    requires forall j: nat :: i <= j ==> !FitsIn(d, idx, j, arv, need)
    ensures PickWindow(d, idx, i, arv, need) == NoWindow
    decreases |d.windows[idx]| - i
  {
    if i < |d.windows[idx]| {
      assert !FitsIn(d, idx, i, arv, need);
      PickNone(d, idx, i + 1, arv, need);
    }
  }

  /** Without a visiting time a usable window is an error. */
  lemma {:induction false} PickLost(d: Day, idx: nat, i: nat, j: nat, arv: int, need: bv8)
    requires WellFormed(d) && idx < d.n && i <= j && d.dur[idx] == -1 && FitsIn(d, idx, j, arv, need)
    ensures i <= |d.windows[idx]| && PickWindow(d, idx, i, arv, need) == Lost
    decreases j - i
  {
    if i < j { PickLost(d, idx, i + 1, j, arv, need); }
  }

  lemma {:induction false} PickUntimed(d: Day, idx: nat, i: nat, arv: int, need: bv8)
    requires WellFormed(d) && idx < d.n && i <= |d.windows[idx]| && d.dur[idx] == -1
    ensures !PickWindow(d, idx, i, arv, need).Taken?
    decreases |d.windows[idx]| - i
  {
    if i < |d.windows[idx]| { PickUntimed(d, idx, i + 1, arv, need); }
  }

  lemma {:induction false} FirstOf(d: Day, idx: nat, arv: int, need: bv8, j: nat) returns (i: nat)
    requires WellFormed(d) && idx < d.n && FitsIn(d, idx, j, arv, need)
    ensures FirstFit(d, idx, 0, i, arv, need)
    decreases j
  {
    if k: nat :| k < j && FitsIn(d, idx, k, arv, need) {
      i := FirstOf(d, idx, arv, need, k);
    } else {
      i := j;
    }
  }

  /** The first window that fits at idx opens more than LONG_WAIT after the arrival at arv, and early enough for
      the visit to end by the stop time. */
  ghost predicate LateAt(d: Day, idx: nat, arv: int)
    requires WellFormed(d) && idx < d.n
  {
    exists j :: LateWindow(d, idx, j, arv)
  }

  ghost predicate LateWindow(d: Day, idx: nat, j: nat, arv: int)
    requires WellFormed(d) && idx < d.n
  {
    && FirstFit(d, idx, 0, j, arv, d.restNeed)
    && d.windows[idx][j].value.open - arv > LONG_WAIT
    && d.windows[idx][j].value.open + d.dur[idx] <= d.stop
  }

  /** The day's first place is a restaurant at which one waits that long. */
  ghost predicate LateLunch(d: Day, o: seq<nat>)
    requires WellFormed(d) && InRange(d, o)
  {
    |o| > 2 && d.leg(o[0], o[1]).Some? && d.vType[o[1]] & RESTAURANT != 0 &&
    LateAt(d, o[1], d.start + d.leg(o[0], o[1]).value.time)
  }

  lemma {:induction false} MarkStays(d: Day, o: seq<nat>, i: nat, offset: int, need: bv8, firstL: int)
    requires WellFormed(d) && InRange(d, o) && 2 <= i <= |o|
    ensures var r := ClashFrom(d, o, i, offset, need, firstL); r.Clash? ==> r.firstL == firstL
    decreases |o| - i
  {
    if i < |o| - 1 && d.leg(o[i - 1], o[i]).Some? {
      var arv := offset + d.leg(o[i - 1], o[i]).value.time;
      var r := PickWindow(d, o[i], 0, arv, need);
      if r.Taken? {
        MarkStays(d, o, i + 1, r.begin + d.dur[o[i]], NeedAfter(d, o[i], r.j, need), firstL);
      }
    }
  }

  /** The mark is set exactly for a long wait at a restaurant that comes first. */
  lemma MarkMeans(d: Day, o: seq<nat>)
    requires WellFormed(d) && InRange(d, o) && 2 <= |o| && ClashOf(d, o).Clash?
    ensures ClashOf(d, o).firstL == if LateLunch(d, o) then 1 else 0
  {
    if |o| > 2 {
      var idx, arv := o[1], d.start + d.leg(o[0], o[1]).value.time;
      var r := PickWindow(d, idx, 0, arv, d.restNeed);
      if r.Taken? {
        MarkStays(d, o, 2, r.begin + d.dur[idx], NeedAfter(d, idx, r.j, d.restNeed),
                  if LongFirstWait(d, 1, idx, r.begin - arv) then 1 else 0);
      }
      FirstWait(d, idx, arv);
    }
  }

  /** The first place is reached too early exactly if the window taken there opens so late. */
  lemma FirstWait(d: Day, idx: nat, arv: int)
    requires WellFormed(d) && idx < d.n && PickWindow(d, idx, 0, arv, d.restNeed) != Lost
    ensures var r := PickWindow(d, idx, 0, arv, d.restNeed);
      LateAt(d, idx, arv) <==> r.Taken? && r.begin - arv > LONG_WAIT
  {
    if d.dur[idx] == -1 {
      PickUntimed(d, idx, 0, arv, d.restNeed);
      forall j: nat | FitsIn(d, idx, j, arv, d.restNeed)
        ensures false
      {
        PickLost(d, idx, 0, j, arv, d.restNeed);
      }
    } else if j: nat :| FitsIn(d, idx, j, arv, d.restNeed) {
      var i := FirstOf(d, idx, arv, d.restNeed, j);
      PickMeans(d, idx, 0, i, arv, d.restNeed);
      assert forall k :: LateWindow(d, idx, k, arv) ==> k == i;
      assert LateAt(d, idx, arv) <==> LateWindow(d, idx, i, arv);
    } else {
      PickNone(d, idx, 0, arv, d.restNeed);
    }
  }

  // ----- Which orders the search admits

  /** The types of the restaurants along path, from its second node on. */
  ghost function Rests(d: Day, path: seq<nat>): seq<bv8>
    requires WellFormed(d) && InRange(d, path)
  {
    if |path| <= 1 then []
    else
      var before, t := Rests(d, path[..|path| - 1]), d.vType[path[|path| - 1]];
      if t & RESTAURANT != 0 then before + [t] else before
  }

  /** No more restaurants than lunch and supper are asked for; lunch comes first, and where supper is the only
      meal left, the restaurant for it serves supper. */
  ghost predicate MealsAllowed(need: bv8, ts: seq<bv8>) {
    var lunch, supper := need & LUNCH != 0, need & SUPPER != 0;
    var first := if lunch then 1 else 0;
    && |ts| <= first + (if supper then 1 else 0)
    && (lunch && ts != [] ==> ts[0] & LUNCH != 0)
    && (|ts| > first && need & !LUNCH == SUPPER ==> ts[first] & SUPPER != 0)
  }

  /** What is left of the meals after that many restaurants. */
  ghost function LeftAfter(need: bv8, n: nat): bv8 {
    var lunch, supper := need & LUNCH != 0, need & SUPPER != 0;
    if n == 0 then need
    else if lunch && (n == 1 || !supper) then need & !LUNCH
    else need & !LUNCH & !SUPPER
  }

  lemma MealNext(need: bv8, ts: seq<bv8>, t: bv8)
    requires MealsAllowed(need, ts)
    ensures MealsAllowed(need, ts + [t]) <==> MealAccepted(LeftAfter(need, |ts|), t)
    ensures MealsAllowed(need, ts + [t]) ==> LeftAfter(need, |ts| + 1) == MealTaken(LeftAfter(need, |ts|))
  {
    assert ts != [] ==> (ts + [t])[0] == ts[0];
    assert |ts| > 1 ==> (ts + [t])[1] == ts[1];
    assert (ts + [t])[|ts|] == t;
  }

  /** The meal rule at the first places of an order. */
  ghost predicate MealsKept(d: Day, path: seq<nat>)
    requires WellFormed(d) && InRange(d, path)
  {
    forall k :: 0 < k < |path| ==> MealKept(d, path, k)
  }

  ghost predicate MealKept(d: Day, path: seq<nat>, k: nat)
    requires WellFormed(d) && InRange(d, path) && k < |path|
  {
    IsRest(d.vType[path[k]]) ==> MealAccepted(Need(d, path[..k]), d.vType[path[k]])
  }

  lemma {:induction false} MealsMean(d: Day, path: seq<nat>)
    requires WellFormed(d) && InRange(d, path) && path != []
    ensures MealsKept(d, path) <==> MealsAllowed(d.restNeed, Rests(d, path))
    ensures MealsAllowed(d.restNeed, Rests(d, path)) ==> Need(d, path) == LeftAfter(d.restNeed, |Rests(d, path)|)
    decreases |path|
  {
    if |path| == 1 {
      assert path[..0] == [];
    } else {
      var init := path[..|path| - 1];
      MealsMean(d, init);
      MealsKeptSnoc(d, path);
      MealsSnoc(d.restNeed, Rests(d, init), d.vType[path[|path| - 1]], Need(d, init));
    }
  }

  lemma MealsKeptSnoc(d: Day, path: seq<nat>)
    requires WellFormed(d) && InRange(d, path) && |path| > 1
    ensures var last := |path| - 1; MealsKept(d, path) <==> MealsKept(d, path[..last]) && MealKept(d, path, last)
  {
    var last := |path| - 1;
    forall k | 0 < k < last
      ensures MealKept(d, path, k) <==> MealKept(d, path[..last], k)
    {
      assert path[..last][..k] == path[..k];
    }
  }

  lemma MealsSnoc(need: bv8, ts: seq<bv8>, t: bv8, left: bv8)
    requires MealsAllowed(need, ts) ==> left == LeftAfter(need, |ts|)
    ensures MealsAllowed(need, ts + [t]) <==> MealsAllowed(need, ts) && MealAccepted(left, t)
    ensures MealsAllowed(need, ts + [t]) ==> LeftAfter(need, |ts| + 1) == MealTaken(left)
  {
    if MealsAllowed(need, ts) {
      MealNext(need, ts, t);
    } else {
      StaysRefused(need, ts, t);
    }
  }

  lemma StaysRefused(need: bv8, ts: seq<bv8>, t: bv8)
    requires !MealsAllowed(need, ts)
    ensures !MealsAllowed(need, ts + [t])
  {
    assert ts != [] ==> (ts + [t])[0] == ts[0];
    assert |ts| > 1 ==> (ts + [t])[1] == ts[1];
  }

  /** o goes from the day's first node to its last through all places once, along legs that exist. */
  ghost predicate WholeDay(d: Day, o: seq<nat>) {
    && |o| == d.n && InRange(d, o) && Distinct(o) && Linked(d, o)
    && d.n >= 2 && o[0] == 0 && o[d.n - 1] == d.n - 1
  }

  /** The search admits exactly the whole days whose restaurants are allowed. */
  lemma AdmissibleMeans(d: Day, o: seq<nat>)
    requires WellFormed(d)
    ensures Admissible(d, o) <==> WholeDay(d, o) && MealsAllowed(d.restNeed, Rests(d, o[..|o| - 1]))
  {
    if Admissible(d, o) { AdmissibleWhole(d, o); }
    if WholeDay(d, o) {
      MealsMean(d, o[..|o| - 1]);
      if MealsKept(d, o[..|o| - 1]) { WholeAdmissible(d, o); }
    }
  }

  lemma AdmissibleWhole(d: Day, o: seq<nat>)
    requires WellFormed(d) && Admissible(d, o)
    ensures WholeDay(d, o) && MealsKept(d, o[..|o| - 1])
  {
    assert o[0] == 0;
    forall k | 0 < k < |o|
      ensures d.leg(o[k - 1], o[k]).Some?
    {
      assert CanFollow(d, o[..k], o[k]);
    }
    AdmissibleOnce(d, o);
    AdmissibleMeals(d, o);
  }

  lemma AdmissibleOnce(d: Day, o: seq<nat>)
    requires WellFormed(d) && Admissible(d, o)
    ensures Distinct(o)
  {
    forall i, j | 0 <= i < j < |o|
      ensures o[i] != o[j]
    {
      if j < d.n - 1 { assert o[i] == o[..j][i] && o[i] in o[..j]; }
    }
  }

  lemma AdmissibleMeals(d: Day, o: seq<nat>)
    requires WellFormed(d) && Admissible(d, o)
    ensures MealsKept(d, o[..|o| - 1])
  {
    var init := o[..|o| - 1];
    forall k | 0 < k < |init|
      ensures MealKept(d, init, k)
    {
      assert CanFollow(d, o[..k], o[k]);
      assert init[..k] == o[..k];
    }
  }

  lemma WholeAdmissible(d: Day, o: seq<nat>)
    requires WellFormed(d) && WholeDay(d, o) && MealsKept(d, o[..|o| - 1])
    ensures Admissible(d, o)
  {
    assert [0] <= o;
    var init := o[..|o| - 1];
    forall k | 1 <= k < d.n - 1
      ensures 1 <= o[k] < d.n - 1 && o[k] !in o[..k]
    {
      assert o[0] != o[k] && o[k] != o[d.n - 1];
    }
    forall k | 1 <= k < d.n
      ensures CanFollow(d, o[..k], o[k])
    {
      assert d.leg(o[k - 1], o[k]).Some?;
      assert k == d.n - 1 || o[k] != o[d.n - 1];
      if k < |init| {
        assert MealKept(d, init, k);
        assert init[..k] == o[..k];
      }
    }
  }

  // ----- What the search returns

  /** p is the path of an order that the search may admit. */
  ghost predicate PathFor(d: Day, o: seq<nat>, p: SPath)
    requires WellFormed(d)
  {
    && WholeDay(d, o) && MealsAllowed(d.restNeed, Rests(d, o[..|o| - 1]))
    && Describes(d, o, p) && p.firstL == (if LateLunch(d, o) then 1 else 0)
    && ClashOf(d, o) == Clash(p.clash, p.firstL)
  }

  lemma PathOfMeans(d: Day, o: seq<nat>, p: SPath)
    requires WellFormed(d) && Admissible(d, o) && PathOf(d, o) == Some(p)
    ensures PathFor(d, o, p)
  {
    AdmissibleMeans(d, o);
    PathDescribes(d, o, p);
    MarkMeans(d, o);
  }

  /** Every path of the list that DoSearch returns is that of a whole day. */
  lemma SearchDescribes(d: Day, topK: nat, p: SPath)
    requires WellFormed(d) && 1 <= topK && Partial(d, [0])
    requires p in Searched(d, Empty(topK), Leaves(d, [0])).queue
    ensures exists o :: PathFor(d, o, p)
  {
    SearchVisitsAll(d);
    OfferedOnly(Empty(topK), PathsOf(d, Leaves(d, [0])), p);
    DayPathsExact(d, p);
    var o :| Admissible(d, o) && PathOf(d, o) == Some(p);
    PathOfMeans(d, o, p);
  }

  /** A heap holds only what it held or was offered. */
  lemma {:induction false} OfferedOnly(h: Heap, ps: seq<SPath>, p: SPath)
    requires 1 <= h.topK && p in OfferAll(h, ps).queue
    ensures p in h.queue || p in ps
    decreases |ps|
  {
    if ps != [] {
      OfferedOnly(Offer(h, ps[0]), ps[1..], p);
    }
  }
}
